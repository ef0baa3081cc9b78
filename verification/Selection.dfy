/** The members of a dataset and the choice of those to export, on values. */
module Selection {
  import opened Outcomes
  import opened Mms
  import opened Connection

  // ---------------------------------------------------------------- std::string

  const SIZE_MODULUS: nat := 0x1_0000_0000_0000_0000
  const NPOS: nat := SIZE_MODULUS - 1
  /** The largest size of a string. */
  const MAX_SIZE: nat := 0x7FFF_FFFF_FFFF_FFFF

  /** `size_t` arithmetic wraps around; sums and differences of two sizes do so once at most. */
  function Wrap(n: int): (r: nat)
    requires 0 - SIZE_MODULUS <= n < 2 * SIZE_MODULUS
    ensures r == n % SIZE_MODULUS
  {
    if n < 0 then n + SIZE_MODULUS else if n < SIZE_MODULUS then n else n - SIZE_MODULUS
  }

  /** `s.substr(pos, len)`; `None` when it throws `out_of_range`. */
  function Substr(s: string, pos: nat, len: nat): Option<string> {
    if pos > |s| then None
    else if len < |s| - pos then Some(s[pos..pos + len])
    else Some(s[pos..])
  }

  predicate OccursAt(s: string, needle: string, i: nat) {
    i + |needle| <= |s| && s[i..i + |needle|] == needle
  }

  ghost predicate Occurs(s: string, needle: string) {
    exists i: nat :: OccursAt(s, needle, i)
  }

  /** `s.find(needle)`: the first occurrence, or `npos`. */
  function Find(s: string, needle: string): (r: nat)
    requires |s| <= MAX_SIZE
    ensures r == NPOS <==> !Occurs(s, needle)
    ensures r != NPOS ==> OccursAt(s, needle, r) && forall i :: 0 <= i < r ==> !OccursAt(s, needle, i)
  {
    FindFrom(s, needle, 0)
  }

  function FindFrom(s: string, needle: string, from: nat): (r: nat)
    requires from <= |s| <= MAX_SIZE
    ensures r == NPOS <==> forall i: nat :: from <= i ==> !OccursAt(s, needle, i)
    ensures r != NPOS ==> from <= r && OccursAt(s, needle, r) && forall i :: from <= i < r ==> !OccursAt(s, needle, i)
    decreases |s| - from
  {
    if OccursAt(s, needle, from) then from
    else if from == |s| then NPOS
    else FindFrom(s, needle, from + 1)
  }

  /** The part of `s` after its last dot, if it has one. */
  function AfterLastDot(s: string): (r: Option<string>)
    ensures r.None? <==> '.' !in s
    ensures r.Some? ==> |r.value| < |s| && '.' !in r.value
    ensures r.Some? ==> s[|s| - |r.value| - 1] == '.' && s[|s| - |r.value|..] == r.value
  {
    if s == "" then None
    else if s[|s| - 1] == '.' then Some("")
    else
      var front := s[..|s| - 1];
      assert s == front + [s[|s| - 1]];
      match AfterLastDot(front)
      case None => None
      case Some(name) => Some(name + [s[|s| - 1]])
  }

  // ---------------------------------------------------------------- path[FC]

  /** What precedes the first `c`: all of `s` without one. */
  function Before(s: string, c: char): (r: string)
    ensures |r| <= |s| && r == s[..|r|] && c !in r
    ensures c in s <==> |r| < |s|
    ensures |r| < |s| ==> s[|r|] == c
  {
    if s == "" || s[0] == c then "" else [s[0]] + Before(s[1..], c)
  }

  /** `s.find(c)` */
  function IndexOf(s: string, c: char): nat {
    if c in s then |Before(s, c)| else NPOS
  }

  function PathPart(member: string): string {
    Before(member, '[')
  }

  /** What follows the first `[` (everything, without one), up to the first `]`, unless that one comes before. */
  function ConstraintPart(member: string): string {
    if '[' !in member then Before(member, ']')
    else if ']' in Before(member, '[') then member[|Before(member, '[')| + 1..]
    else Before(member[|Before(member, '[')| + 1..], ']')
  }

  lemma {:induction false} BeforeSkips(a: string, s: string, c: char)
    requires c !in a
    ensures Before(a + s, c) == a + Before(s, c)
  {
    if a == "" {
      assert a + s == s;
    } else {
      assert (a + s)[1..] == a[1..] + s && c !in a[1..];
      BeforeSkips(a[1..], s, c);
    }
  }

  lemma {:induction false} BeforeStops(a: string, s: string, c: char)
    requires c in a
    ensures Before(a + s, c) == Before(a, c)
  {
    if a[0] != c {
      assert (a + s)[1..] == a[1..] + s;
      BeforeStops(a[1..], s, c);
    }
  }

  /** The position and the length that the extraction of the constraint computes. */
  function ConstraintStart(member: string): nat
    requires |member| <= MAX_SIZE
  {
    Wrap(IndexOf(member, '[') + 1)
  }

  function ConstraintLength(member: string): nat
    requires |member| <= MAX_SIZE
  {
    Wrap(IndexOf(member, ']') - IndexOf(member, '[') - 1)
  }

  lemma PathExtraction(member: string)
    requires |member| <= MAX_SIZE
    ensures Substr(member, 0, IndexOf(member, '[')) == Some(PathPart(member))
  {
    if '[' !in member {
      assert member[0..] == member == member[..|member|];
    }
  }

  lemma ConstraintExtractionClosed(member: string)
    requires |member| <= MAX_SIZE && '[' !in member
    ensures Substr(member, ConstraintStart(member), ConstraintLength(member)) == Some(ConstraintPart(member))
  {
    assert ConstraintStart(member) == 0;
    if ']' in member {
      assert ConstraintLength(member) == |Before(member, ']')|;
    } else {
      assert ConstraintLength(member) == NPOS && Before(member, ']') == member;
    }
    assert member[0..] == member == member[..|member|];
  }

  /** Where the first `]` is, with respect to the first `[`. */
  lemma FirstClosingBracket(path: string, rest: string)
    requires '[' !in path
    ensures IndexOf(path + (['['] + rest), '[') == |path|
    ensures IndexOf(path + (['['] + rest), ']') ==
            if ']' in path then |Before(path, ']')|
            else if ']' in rest then |path| + 1 + |Before(rest, ']')|
            else NPOS
  {
    var member := path + (['['] + rest);
    BeforeSkips(path, ['['] + rest, '[');
    assert member[|path|] == '[';
    if ']' in path {
      BeforeStops(path, ['['] + rest, ']');
      assert ']' in member;
    } else {
      BeforeSkips(path, ['['] + rest, ']');
      BeforeSkips(['['], rest, ']');
      assert ']' in rest <==> ']' in member;
    }
  }

  lemma ConstraintBounds(member: string, path: string, rest: string)
    requires '[' !in path && member == path + (['['] + rest) && |member| <= MAX_SIZE
    ensures ConstraintStart(member) == |path| + 1
    ensures if ']' !in path && ']' in rest then ConstraintLength(member) == |Before(rest, ']')|
            else ConstraintLength(member) >= |rest|
  {
    FirstClosingBracket(path, rest);
  }

  lemma SubstrAfter(path: string, rest: string, len: nat)
    ensures Substr(path + (['['] + rest), |path| + 1, len) == Some(if len < |rest| then rest[..len] else rest)
  {
    var member := path + (['['] + rest);
    assert member[|path| + 1..] == rest;
    assert len < |rest| ==> member[|path| + 1..|path| + 1 + len] == rest[..len];
  }

  lemma ConstraintExtractionOpen(member: string, path: string, rest: string)
    requires '[' !in path && member == path + (['['] + rest) && |member| <= MAX_SIZE
    ensures Substr(member, ConstraintStart(member), ConstraintLength(member))
              == Some(if ']' in path then rest else Before(rest, ']'))
  {
    ConstraintBounds(member, path, rest);
    SubstrAfter(path, rest, ConstraintLength(member));
    assert rest[..|rest|] == rest;
  }

  /** Whatever brackets are missing or reversed, the wrapping position arithmetic of the extraction never
      starts out of range, and yields these parts. */
  lemma ExtractionNeverThrows(member: string)
    requires |member| <= MAX_SIZE
    ensures Substr(member, 0, IndexOf(member, '[')) == Some(PathPart(member))
    ensures Substr(member, ConstraintStart(member), ConstraintLength(member)) == Some(ConstraintPart(member))
  {
    PathExtraction(member);
    if '[' in member {
      var path := Before(member, '[');
      var rest := member[|path| + 1..];
      assert member == path + (['['] + rest);
      ConstraintExtractionOpen(member, path, rest);
    } else {
      ConstraintExtractionClosed(member);
    }
  }

  /** A member written `path[FC]` gives back both parts exactly when the path holds no bracket and the
      constraint no closing one. */
  lemma ExtractionRoundTrip(path: string, fc: string)
    ensures var member := path + (['['] + (fc + [']']));
            (PathPart(member) == path && ConstraintPart(member) == fc) <==> '[' !in path && ']' !in path && ']' !in fc
  {
    var rest := fc + [']'];
    var member := path + (['['] + rest);
    if '[' in path {
      BeforeStops(path, ['['] + rest, '[');
    } else {
      BeforeSkips(path, ['['] + rest, '[');
      assert PathPart(member) == path + "";
      assert member[|path|] == '[' && member[|path| + 1..] == rest;
      if ']' !in fc {
        BeforeSkips(fc, [']'], ']');
        assert fc + "" == fc;
      }
    }
  }

  // ---------------------------------------------------------------- entries

  datatype DatapointTypeId = MV_DATAPOINT_TYPE | SPS_DATAPOINT_TYPE | UNKNOWN_DATAPOINT_TYPE

  /** The view of a datapoint configuration. */
  datatype Entry = Entry(
    dpLabel: string, datapointType: string, typeId: DatapointTypeId, dataPath: string,
    fc: FunctionalConstraint, tree: Option<NameTree>)

  ghost predicate IsSelectedBy(doPath: string, selected: Entry) {
    Occurs(doPath, "." + selected.dataPath)
  }

  /** An entry selects a path exactly if its name stands somewhere in the path right after a dot. */
  lemma SelectedAfterDot(doPath: string, selected: Entry)
    ensures IsSelectedBy(doPath, selected) <==>
              exists i :: && 0 <= i && i + 1 + |selected.dataPath| <= |doPath|
                          && doPath[i] == '.' && doPath[i + 1..i + 1 + |selected.dataPath|] == selected.dataPath
  {
    var name := selected.dataPath;
    forall i: nat | i + 1 + |name| <= |doPath|
      ensures OccursAt(doPath, "." + name, i) <==> doPath[i] == '.' && doPath[i + 1..i + 1 + |name|] == name
    {
      var part := doPath[i..i + 1 + |name|];
      assert part == [doPath[i]] + doPath[i + 1..i + 1 + |name|];
      assert part == "." + name ==> part[0] == '.' && part[1..] == name;
    }
    if IsSelectedBy(doPath, selected) {
      var i: nat :| OccursAt(doPath, "." + name, i);
      assert i + 1 + |name| <= |doPath|;
    }
    if i :| && 0 <= i && i + 1 + |name| <= |doPath| && doPath[i] == '.' && doPath[i + 1..i + 1 + |name|] == name {
      assert OccursAt(doPath, "." + name, i);
    }
  }

  /** The first entry of the selection whose name occurs, after a dot, in the path. */
  ghost function FirstMatch(selection: seq<Entry>, doPath: string): (r: Option<nat>)
    ensures r.None? <==> forall i :: 0 <= i < |selection| ==> !IsSelectedBy(doPath, selection[i])
    ensures r.Some? ==> && r.value < |selection| && IsSelectedBy(doPath, selection[r.value])
                        && forall i :: 0 <= i < r.value ==> !IsSelectedBy(doPath, selection[i])
  {
    if selection == [] then None
    else if IsSelectedBy(doPath, selection[0]) then Some(0)
    else
      assert forall i :: 1 <= i < |selection| ==> selection[i] == selection[1..][i - 1];
      match FirstMatch(selection[1..], doPath)
      case None => None
      case Some(i) => Some(i + 1)
  }

  /** The entry of a member of a dataset, before the fallback, when `nodes` are the names below its path. */
  ghost function MemberEntry(member: string, selection: seq<Entry>, fcOf: string -> FunctionalConstraint,
                             nodes: seq<NameTree>): Entry
  {
    var doPath, fc := PathPart(member), fcOf(ConstraintPart(member));
    match FirstMatch(selection, doPath)
    case None => Entry("", "", UNKNOWN_DATAPOINT_TYPE, doPath, fc, Some(NameTree("", nodes)))
    case Some(i) => Entry(selection[i].dpLabel, selection[i].datapointType, selection[i].typeId, doPath, fc,
                          Some(NameTree(selection[i].dpLabel, nodes)))
  }

  ghost function MemberEntries(members: seq<string>, selection: seq<Entry>,
                               fcOf: string -> FunctionalConstraint, nodes: seq<seq<NameTree>>): (entries: seq<Entry>)
    requires |nodes| == |members|
    ensures |entries| == |members|
  {
    if members == [] then []
    else MemberEntries(members[..|members| - 1], selection, fcOf, nodes[..|members| - 1])
         + [MemberEntry(members[|members| - 1], selection, fcOf, nodes[|members| - 1])]
  }

  lemma {:induction false} MemberEntriesAt(members: seq<string>, selection: seq<Entry>,
                                           fcOf: string -> FunctionalConstraint, nodes: seq<seq<NameTree>>, i: nat)
    requires |nodes| == |members| && i < |members|
    ensures MemberEntries(members, selection, fcOf, nodes)[i] == MemberEntry(members[i], selection, fcOf, nodes[i])
  {
    if i < |members| - 1 {
      MemberEntriesAt(members[..|members| - 1], selection, fcOf, nodes[..|members| - 1], i);
    }
  }

  function DoName(dataPath: string): string {
    match AfterLastDot(dataPath)
    case None => "noName"
    case Some(name) => name
  }

  /** The name after the last dot is the last component of a path. */
  lemma {:induction false} DoNameIsLastComponent(prefix: string, name: string)
    requires '.' !in name
    ensures DoName(prefix + "." + name) == name
    ensures DoName(name) == "noName"
  {
    var s := prefix + "." + name;
    if name != "" {
      var front := name[..|name| - 1];
      assert s[..|s| - 1] == prefix + "." + front && s[|s| - 1] == name[|name| - 1];
      assert name == front + [name[|name| - 1]];
      DoNameIsLastComponent(prefix, front);
      assert '.' in s[..|s| - 1] by { assert s[..|s| - 1][|prefix|] == '.'; }
    }
  }

  /** The name at the root of every name tree is the label of its entry. */
  predicate RootsAreLabels(entries: seq<Entry>) {
    forall i :: 0 <= i < |entries| && entries[i].tree.Some? ==> entries[i].tree.value.mmsName == entries[i].dpLabel
  }

  predicate SomeLabelled(entries: seq<Entry>) {
    exists i :: 0 <= i < |entries| && entries[i].dpLabel != ""
  }

  function Relabelled(e: Entry): Entry {
    var doName := DoName(e.dataPath);
    e.(dpLabel := doName, tree := match e.tree case None => None case Some(t) => Some(t.(mmsName := doName)))
  }

  function RelabelledEach(entries: seq<Entry>): (r: seq<Entry>)
    ensures |r| == |entries| && forall i :: 0 <= i < |entries| ==> r[i] == Relabelled(entries[i])
  {
    if entries == [] then [] else [Relabelled(entries[0])] + RelabelledEach(entries[1..])
  }

  /** The entries of a dataset: when no member has a label, all are selected under the last component of
      their path. */
  ghost function DatasetEntries(members: seq<string>, selection: seq<Entry>,
                                fcOf: string -> FunctionalConstraint, nodes: seq<seq<NameTree>>): seq<Entry>
    requires |nodes| == |members|
  {
    var entries := MemberEntries(members, selection, fcOf, nodes);
    if SomeLabelled(entries) then entries else RelabelledEach(entries)
  }

  /** `chosen` is the label of the first entry of the selection that matches the path, or empty if none does. */
  ghost predicate ChosenLabel(selection: seq<Entry>, doPath: string, chosen: string) {
    || (chosen == "" && forall j :: 0 <= j < |selection| ==> !IsSelectedBy(doPath, selection[j]))
    || exists j :: && 0 <= j < |selection| && IsSelectedBy(doPath, selection[j]) && chosen == selection[j].dpLabel
                   && forall k :: 0 <= k < j ==> !IsSelectedBy(doPath, selection[k])
  }

  /** No member of the dataset is chosen by a non-empty label. */
  ghost predicate NoneChosen(members: seq<string>, selection: seq<Entry>) {
    forall i :: 0 <= i < |members| ==> ChosenLabel(selection, PathPart(members[i]), "")
  }

  lemma MemberIsChosen(member: string, selection: seq<Entry>, fcOf: string -> FunctionalConstraint, nodes: seq<NameTree>)
    ensures ChosenLabel(selection, PathPart(member), MemberEntry(member, selection, fcOf, nodes).dpLabel)
  {
  }

  /** Whatever the dataset and the selection: one entry per member, in the order of the server; its label is
      that of the first entry of the selection that matches, or empty, unless all would be empty: then it
      is the last component of its path; and its label is the name at the root of its name tree. */
  lemma DatasetLabels(members: seq<string>, selection: seq<Entry>, fcOf: string -> FunctionalConstraint,
                      nodes: seq<seq<NameTree>>)
    requires |nodes| == |members|
    ensures var entries := DatasetEntries(members, selection, fcOf, nodes);
            && |entries| == |members|
            && forall i :: 0 <= i < |members| ==>
                 && entries[i].dataPath == PathPart(members[i])
                 && entries[i].fc == fcOf(ConstraintPart(members[i]))
                 && entries[i].tree == Some(NameTree(entries[i].dpLabel, nodes[i]))
                 && (if NoneChosen(members, selection) then entries[i].dpLabel == DoName(entries[i].dataPath)
                     else ChosenLabel(selection, entries[i].dataPath, entries[i].dpLabel))
  {
    var before := MemberEntries(members, selection, fcOf, nodes);
    forall i | 0 <= i < |members|
      ensures before[i] == MemberEntry(members[i], selection, fcOf, nodes[i])
      ensures ChosenLabel(selection, PathPart(members[i]), before[i].dpLabel)
    {
      MemberEntriesAt(members, selection, fcOf, nodes, i);
      MemberIsChosen(members[i], selection, fcOf, nodes[i]);
    }
    LabelledIffChosen(members, selection, before);
  }

  /** `k` is the first entry of the selection that selects the path; none is, if it is the size of the selection. */
  ghost predicate IsFirstMatch(selection: seq<Entry>, doPath: string, k: nat) {
    && k <= |selection| && (k < |selection| ==> IsSelectedBy(doPath, selection[k]))
    && forall j :: 0 <= j < k ==> !IsSelectedBy(doPath, selection[j])
  }

  lemma FirstMatchChooses(selection: seq<Entry>, doPath: string, k: nat)
    requires IsFirstMatch(selection, doPath, k)
    ensures forall chosen :: ChosenLabel(selection, doPath, chosen) ==>
              chosen == if k < |selection| then selection[k].dpLabel else ""
  {
  }

  /** The type of every member is that of the entry that selects it first; a member that none selects has no type, and
      keeps none when all members are selected for want of a label. */
  lemma DatasetTypes(members: seq<string>, selection: seq<Entry>, fcOf: string -> FunctionalConstraint,
                     nodes: seq<seq<NameTree>>, i: nat, k: nat)
    requires |nodes| == |members| && i < |members| && IsFirstMatch(selection, PathPart(members[i]), k)
    ensures var entries := DatasetEntries(members, selection, fcOf, nodes);
            && |entries| == |members|
            && entries[i].datapointType == (if k < |selection| then selection[k].datapointType else "")
            && entries[i].typeId == (if k < |selection| then selection[k].typeId else UNKNOWN_DATAPOINT_TYPE)
  {
    MemberEntriesAt(members, selection, fcOf, nodes, i);
    var m := FirstMatch(selection, PathPart(members[i]));
    assert m == if k < |selection| then Some(k) else None;
  }

  lemma LabelledIffChosen(members: seq<string>, selection: seq<Entry>, before: seq<Entry>)
    requires |before| == |members|
    requires forall i :: 0 <= i < |members| ==> ChosenLabel(selection, PathPart(members[i]), before[i].dpLabel)
    ensures SomeLabelled(before) <==> !NoneChosen(members, selection)
  {
  }
}
