/** MMS values, name trees, and the conversion of the one along the other, as functions. */
module Mms {
  import opened Outcomes

  type uint32 = n: int | 0 <= n < 0x1_0000_0000
  type int32 = n: int | -0x8000_0000 <= n < 0x8000_0000

  datatype CompositeKind = Structure | Array

  /** A value read from a server. A leaf holds what the library's accessor for its type returns.
      `Missing` stands for a null pointer, `Unsupported` for the types the plugin does not convert. */
  datatype MmsValue =
    | Missing
    | Composite(kind: CompositeKind, elems: seq<MmsValue>)
    | Boolean(b: bool)
    | Floating(f: real)
    | Unsigned(u: uint32)
    | Integer(i: int32)
    | UtcTime(seconds: uint32)
    | VisibleString(s: string)
    | BitString(printed: string)
    | AccessError(code: int)
    | Unsupported(typeName: string)

  /** The name of each element of a value. */
  datatype NameTree = NameTree(mmsName: string, children: seq<NameTree>)

  datatype Leaf = IntLeaf(i: int) | FloatLeaf(f: real) | TextLeaf(s: string)

  /** The view of an exported datapoint; a child that is a null pointer is `None`. */
  datatype Tree =
    | LeafNode(name: string, leaf: Leaf)
    | DictNode(name: string, children: seq<Option<Tree>>)

  datatype MmsError = InputIsNull | NameNodeIsNull | StructureMismatch | UnsupportedType(typeName: string)

  /** What a conversion does: return, throw, or run into behaviour that C++ leaves undefined. */
  datatype Outcome<+T> = Done(value: T) | Throws(error: MmsError) | Undefined

  const MAG := "mag"

  const DO_READING_MAPPING: map<string, string> :=
    map["cdc" := "do_type", "stVal" := "do_value", "mag.value" := "do_value",
        "mag.f" := "do_value", "q" := "do_quality", "t" := "do_ts"]

  function Mapped(name: string): string {
    if name in DO_READING_MAPPING then DO_READING_MAPPING[name] else name
  }

  /** The payload of a leaf value. */
  function LeafOf(v: MmsValue): Option<Leaf> {
    match v
    case Boolean(b) => Some(IntLeaf(if b then 1 else 0))
    case Floating(f) => Some(FloatLeaf(f))
    case Unsigned(u) => Some(IntLeaf(u))
    case Integer(i) => Some(IntLeaf(i))
    case UtcTime(seconds) => Some(IntLeaf(seconds))
    case VisibleString(s) => Some(TextLeaf(s))
    case BitString(printed) => Some(TextLeaf(printed))
    case _ => None
  }

  function WithName(t: Tree, name: string): Tree {
    t.(name := name)
  }

  /** The conversion of a value along its name tree; `None` is the null datapoint of an access error. */
  function Convert(v: MmsValue, t: NameTree): Outcome<Option<Tree>> {
    match v
    case Missing => Throws(InputIsNull)
    case Unsupported(typeName) => Throws(UnsupportedType(typeName))
    case AccessError(_) => Done(None)
    case Composite(_, elems) =>
      if |elems| != |t.children| then Throws(StructureMismatch)
      else if t.mmsName == MAG then
        if elems == [] then Undefined
        else
          (match Convert(elems[0], t.children[0])
           case Done(Some(d)) => Done(Some(WithName(d, Mapped(MAG + "." + d.name))))
           case Done(None) => Undefined
           case Throws(e) => Throws(e)
           case Undefined => Undefined)
      else
        (match ConvertEach(elems, t.children)
         case Done(ds) => Done(Some(DictNode(Mapped(t.mmsName), ds)))
         case Throws(e) => Throws(e)
         case Undefined => Undefined)
    case _ => Done(Some(LeafNode(Mapped(t.mmsName), LeafOf(v).value)))
  }

  /** The conversion of the elements in order; the first that does not return decides. */
  function ConvertEach(elems: seq<MmsValue>, names: seq<NameTree>): (r: Outcome<seq<Option<Tree>>>)
    requires |elems| == |names|
    ensures r.Done? ==> |r.value| == |elems|
  {
    if elems == [] then Done([])
    else
      match Convert(elems[0], names[0])
      case Throws(e) => Throws(e)
      case Undefined => Undefined
      case Done(d) =>
        (match ConvertEach(elems[1..], names[1..])
         case Throws(e) => Throws(e)
         case Undefined => Undefined
         case Done(ds) => Done([d] + ds))
  }

  /** The conversion along a name tree that may be missing. */
  function Build(v: MmsValue, tree: Option<NameTree>): Outcome<Option<Tree>> {
    if v.Missing? then Throws(InputIsNull)
    else if tree.None? then Throws(NameNodeIsNull)
    else Convert(v, tree.value)
  }

  /** Where a conversion of elements that has returned so far stands after one more. */
  lemma {:induction false} ConvertEachPrefix(elems: seq<MmsValue>, names: seq<NameTree>, i: nat)
    requires |elems| == |names| && i < |elems|
    requires ConvertEach(elems[..i], names[..i]).Done?
    ensures match Convert(elems[i], names[i])
            case Throws(e) => ConvertEach(elems, names) == Throws(e)
            case Undefined => ConvertEach(elems, names) == Undefined
            case Done(d) => ConvertEach(elems[..i + 1], names[..i + 1])
                              == Done(ConvertEach(elems[..i], names[..i]).value + [d])
  {
    if i > 0 {
      assert elems[..i][1..] == elems[1..][..i - 1] && names[..i][1..] == names[1..][..i - 1];
      assert elems[..i + 1][1..] == elems[1..][..i] && names[..i + 1][1..] == names[1..][..i];
      ConvertEachPrefix(elems[1..], names[1..], i - 1);
      if Convert(elems[i], names[i]).Done? {
        var first := Convert(elems[0], names[0]).value;
        var before := ConvertEach(elems[1..][..i - 1], names[1..][..i - 1]).value;
        var d := Convert(elems[i], names[i]).value;
        assert [first] + (before + [d]) == ([first] + before) + [d];
      }
    } else {
      assert elems[..1] == [elems[0]] && names[..1] == [names[0]];
      assert elems[..1][1..] == [] && names[..1][1..] == [];
      if Convert(elems[0], names[0]).Done? {
        var d := Convert(elems[0], names[0]).value;
        assert ConvertEach(elems[..1], names[..1]) == Done([d] + []);
        assert [d] + [] == [] + [d];
      }
    }
  }

  // ---------------------------------------------------------------- when it succeeds

  /** The value has the shape of the name tree, as far as the conversion looks. */
  predicate Matches(v: MmsValue, t: NameTree) {
    match v
    case Missing => false
    case Unsupported(_) => false
    case Composite(_, elems) =>
      && |elems| == |t.children|
      && if t.mmsName == MAG then elems != [] && !elems[0].AccessError? && Matches(elems[0], t.children[0])
         else forall i :: 0 <= i < |elems| ==> Matches(elems[i], t.children[i])
    case _ => true
  }

  /** The conversion returns exactly on the values that match, and returns null exactly for an access error. */
  lemma {:induction false} ConvertsIffMatches(v: MmsValue, t: NameTree)
    ensures Convert(v, t).Done? <==> Matches(v, t)
    ensures Convert(v, t).Done? ==> (Convert(v, t).value.None? <==> v.AccessError?)
  {
    if v.Composite? && |v.elems| == |t.children| {
      if t.mmsName == MAG {
        if v.elems != [] {
          ConvertsIffMatches(v.elems[0], t.children[0]);
        }
      } else {
        ConvertsEachIffMatches(v.elems, t.children);
      }
    }
  }

  lemma {:induction false} ConvertsEachIffMatches(elems: seq<MmsValue>, names: seq<NameTree>)
    requires |elems| == |names|
    ensures ConvertEach(elems, names).Done? <==> forall i :: 0 <= i < |elems| ==> Matches(elems[i], names[i])
  {
    if elems != [] {
      ConvertsIffMatches(elems[0], names[0]);
      ConvertsEachIffMatches(elems[1..], names[1..]);
      assert forall i :: 1 <= i < |elems| ==> elems[i] == elems[1..][i - 1] && names[i] == names[1..][i - 1];
    }
  }

  /** Child `i` is what element `i` converts to. */
  lemma {:induction false} ConvertEachAt(elems: seq<MmsValue>, names: seq<NameTree>, i: nat)
    requires |elems| == |names| && i < |elems|
    requires ConvertEach(elems, names).Done?
    ensures Convert(elems[i], names[i]) == Done(ConvertEach(elems, names).value[i])
  {
    if i > 0 {
      ConvertEachAt(elems[1..], names[1..], i - 1);
    }
  }

  /** A sufficient guard against undefined behaviour: no `mag` structure is empty or starts with an
      access error. */
  predicate MagsAreSafe(v: MmsValue, t: NameTree) {
    v.Composite? && |v.elems| == |t.children| ==>
      if t.mmsName == MAG then v.elems != [] && !v.elems[0].AccessError? && MagsAreSafe(v.elems[0], t.children[0])
      else forall i :: 0 <= i < |v.elems| ==> MagsAreSafe(v.elems[i], t.children[i])
  }

  lemma {:induction false} SafeMagsAreDefined(v: MmsValue, t: NameTree)
    requires MagsAreSafe(v, t)
    ensures !Convert(v, t).Undefined?
  {
    if v.Composite? && |v.elems| == |t.children| {
      if t.mmsName == MAG {
        SafeMagsAreDefined(v.elems[0], t.children[0]);
        ConvertsIffMatches(v.elems[0], t.children[0]);
      } else {
        SafeMagsAreDefinedEach(v.elems, t.children);
      }
    }
  }

  lemma {:induction false} SafeMagsAreDefinedEach(elems: seq<MmsValue>, names: seq<NameTree>)
    requires |elems| == |names|
    requires forall i :: 0 <= i < |elems| ==> MagsAreSafe(elems[i], names[i])
    ensures !ConvertEach(elems, names).Undefined?
  {
    if elems != [] {
      SafeMagsAreDefined(elems[0], names[0]);
      SafeMagsAreDefinedEach(elems[1..], names[1..]);
    }
  }

  /** The conversion gets to a `mag` structure that is empty or starts with an access error: everything that it
      converts before matches. */
  predicate ReachesBadMag(v: MmsValue, t: NameTree) {
    v.Composite? && |v.elems| == |t.children| &&
    if t.mmsName == MAG then v.elems == [] || v.elems[0].AccessError? || ReachesBadMag(v.elems[0], t.children[0])
    else exists i :: && 0 <= i < |v.elems| && ReachesBadMag(v.elems[i], t.children[i])
                     && forall j :: 0 <= j < i ==> Matches(v.elems[j], t.children[j])
  }

  /** That is exactly when its behaviour is undefined. */
  lemma {:induction false} UndefinedExactly(v: MmsValue, t: NameTree)
    ensures Convert(v, t).Undefined? <==> ReachesBadMag(v, t)
  {
    if v.Composite? && |v.elems| == |t.children| {
      if t.mmsName == MAG {
        if v.elems != [] {
          UndefinedExactly(v.elems[0], t.children[0]);
          ConvertsIffMatches(v.elems[0], t.children[0]);
        }
      } else {
        UndefinedExactlyEach(v.elems, t.children);
      }
    }
  }

  lemma {:induction false} UndefinedExactlyEach(elems: seq<MmsValue>, names: seq<NameTree>)
    requires |elems| == |names|
    ensures ConvertEach(elems, names).Undefined? <==>
            exists i :: && 0 <= i < |elems| && ReachesBadMag(elems[i], names[i])
                        && forall j :: 0 <= j < i ==> Matches(elems[j], names[j])
  {
    if elems != [] {
      UndefinedExactly(elems[0], names[0]);
      ConvertsIffMatches(elems[0], names[0]);
      UndefinedExactlyEach(elems[1..], names[1..]);
      assert forall j :: 1 <= j < |elems| ==> elems[j] == elems[1..][j - 1] && names[j] == names[1..][j - 1];
      if ConvertEach(elems[1..], names[1..]).Undefined? && Matches(elems[0], names[0]) {
        var i :| && 0 <= i < |elems| - 1 && ReachesBadMag(elems[1..][i], names[1..][i])
                 && forall j :: 0 <= j < i ==> Matches(elems[1..][j], names[1..][j]);
        assert ReachesBadMag(elems[i + 1], names[i + 1]) && forall j :: 0 <= j < i + 1 ==> Matches(elems[j], names[j]);
      }
      forall i | && 0 < i < |elems| && ReachesBadMag(elems[i], names[i])
                 && (forall j :: 0 <= j < i ==> Matches(elems[j], names[j]))
        ensures ConvertEach(elems, names).Undefined?
      {
        assert ReachesBadMag(elems[1..][i - 1], names[1..][i - 1]);
        assert forall j :: 0 <= j < i - 1 ==> Matches(elems[1..][j], names[1..][j]);
      }
    }
  }

  /** The conversion gets to something that it throws for, everything before it matching: a null value, a structure of
      another size than its names, or an unsupported type. */
  predicate ReachesError(v: MmsValue, t: NameTree, e: MmsError) {
    || (v.Missing? && e == InputIsNull)
    || (v.Unsupported? && e == UnsupportedType(v.typeName))
    || (v.Composite? &&
        if |v.elems| != |t.children| then e == StructureMismatch
        else if t.mmsName == MAG then v.elems != [] && ReachesError(v.elems[0], t.children[0], e)
        else exists i :: && 0 <= i < |v.elems| && ReachesError(v.elems[i], t.children[i], e)
                         && forall j :: 0 <= j < i ==> Matches(v.elems[j], t.children[j]))
  }

  /** That is exactly when it throws, and what. */
  lemma {:induction false} ThrowsExactly(v: MmsValue, t: NameTree, e: MmsError)
    ensures Convert(v, t) == Throws(e) <==> ReachesError(v, t, e)
  {
    if v.Composite? && |v.elems| == |t.children| {
      if t.mmsName == MAG {
        if v.elems != [] {
          ThrowsExactly(v.elems[0], t.children[0], e);
          ConvertsIffMatches(v.elems[0], t.children[0]);
        }
      } else {
        ThrowsExactlyEach(v.elems, t.children, e);
      }
    }
  }

  lemma {:induction false} ThrowsExactlyEach(elems: seq<MmsValue>, names: seq<NameTree>, e: MmsError)
    requires |elems| == |names|
    ensures ConvertEach(elems, names) == Throws(e) <==>
            exists i :: && 0 <= i < |elems| && ReachesError(elems[i], names[i], e)
                        && forall j :: 0 <= j < i ==> Matches(elems[j], names[j])
  {
    if elems != [] {
      ThrowsExactly(elems[0], names[0], e);
      ConvertsIffMatches(elems[0], names[0]);
      ThrowsExactlyEach(elems[1..], names[1..], e);
      assert forall j :: 1 <= j < |elems| ==> elems[j] == elems[1..][j - 1] && names[j] == names[1..][j - 1];
      if ConvertEach(elems[1..], names[1..]) == Throws(e) && Matches(elems[0], names[0]) {
        var i :| && 0 <= i < |elems| - 1 && ReachesError(elems[1..][i], names[1..][i], e)
                 && forall j :: 0 <= j < i ==> Matches(elems[1..][j], names[1..][j]);
        assert ReachesError(elems[i + 1], names[i + 1], e) && forall j :: 0 <= j < i + 1 ==> Matches(elems[j], names[j]);
      }
      forall i | && 0 < i < |elems| && ReachesError(elems[i], names[i], e)
                 && (forall j :: 0 <= j < i ==> Matches(elems[j], names[j]))
        ensures ConvertEach(elems, names) == Throws(e)
      {
        assert ReachesError(elems[1..][i - 1], names[1..][i - 1], e);
        assert forall j :: 0 <= j < i - 1 ==> Matches(elems[1..][j], names[1..][j]);
      }
    }
  }

  // ---------------------------------------------------------------- what it yields

  /** The leaf at a path of child indices of a datapoint. */
  function LeafAt(d: Option<Tree>, path: seq<nat>): Option<Leaf> {
    match d
    case None => None
    case Some(LeafNode(_, leaf)) => if path == [] then Some(leaf) else None
    case Some(DictNode(_, children)) =>
      if path == [] || path[0] >= |children| then None else LeafAt(children[path[0]], path[1..])
  }

  /** The leaf at that path of the value itself, where a `mag` structure is transparent: it stands for
      its first element. */
  function ValueLeafAt(v: MmsValue, t: NameTree, path: seq<nat>): Option<Leaf> {
    if !v.Composite? then (if path == [] then LeafOf(v) else None)
    else if |v.elems| != |t.children| then None
    else if t.mmsName == MAG then
      if v.elems == [] then None else ValueLeafAt(v.elems[0], t.children[0], path)
    else if path == [] || path[0] >= |v.elems| then None
    else ValueLeafAt(v.elems[path[0]], t.children[path[0]], path[1..])
  }

  lemma LeafAtIgnoresName(d: Tree, name: string, path: seq<nat>)
    ensures LeafAt(Some(WithName(d, name)), path) == LeafAt(Some(d), path)
  {
  }

  /** A datapoint holds, at every path, the leaf that the value holds there. */
  lemma {:induction false} ConversionKeepsLeaves(v: MmsValue, t: NameTree, path: seq<nat>)
    requires Convert(v, t).Done?
    ensures LeafAt(Convert(v, t).value, path) == ValueLeafAt(v, t, path)
  {
    if v.Composite? {
      if t.mmsName == MAG {
        var inner := Convert(v.elems[0], t.children[0]);
        ConversionKeepsLeaves(v.elems[0], t.children[0], path);
        LeafAtIgnoresName(inner.value.value, Mapped(MAG + "." + inner.value.value.name), path);
      } else if path != [] && path[0] < |v.elems| {
        ConvertEachAt(v.elems, t.children, path[0]);
        ConversionKeepsLeaves(v.elems[path[0]], t.children[path[0]], path[1..]);
      }
    }
  }

  /** What a value that is no structure converts to, type by type: a leaf under the mapped name of its node. */
  lemma LeafPayloads(v: MmsValue, t: NameTree)
    ensures v == Boolean(true) ==> Convert(v, t) == Done(Some(LeafNode(Mapped(t.mmsName), IntLeaf(1))))
    ensures v == Boolean(false) ==> Convert(v, t) == Done(Some(LeafNode(Mapped(t.mmsName), IntLeaf(0))))
    ensures v.Floating? ==> Convert(v, t) == Done(Some(LeafNode(Mapped(t.mmsName), FloatLeaf(v.f))))
    ensures v.Unsigned? ==> Convert(v, t) == Done(Some(LeafNode(Mapped(t.mmsName), IntLeaf(v.u))))
    ensures v.Integer? ==> Convert(v, t) == Done(Some(LeafNode(Mapped(t.mmsName), IntLeaf(v.i))))
    ensures v.UtcTime? ==> Convert(v, t) == Done(Some(LeafNode(Mapped(t.mmsName), IntLeaf(v.seconds))))
    ensures v.VisibleString? ==> Convert(v, t) == Done(Some(LeafNode(Mapped(t.mmsName), TextLeaf(v.s))))
    ensures v.BitString? ==> Convert(v, t) == Done(Some(LeafNode(Mapped(t.mmsName), TextLeaf(v.printed))))
    ensures v.AccessError? ==> Convert(v, t) == Done(None)
  {
  }

  /** Two values that differ at most in elements of `mag` structures after the first, apart from their count. */
  predicate SameButMagTails(v: MmsValue, w: MmsValue, t: NameTree) {
    if !v.Composite? || !w.Composite? then v == w
    else if |v.elems| != |t.children| then |w.elems| != |t.children|
    else
      && |w.elems| == |t.children|
      && if t.mmsName == MAG then v.elems != [] ==> SameButMagTails(v.elems[0], w.elems[0], t.children[0])
         else forall i :: 0 <= i < |v.elems| ==> SameButMagTails(v.elems[i], w.elems[i], t.children[i])
  }

  /** The conversion does not depend on those elements. */
  lemma {:induction false} MagTailsAreIgnored(v: MmsValue, w: MmsValue, t: NameTree)
    requires SameButMagTails(v, w, t)
    ensures Convert(v, t) == Convert(w, t)
  {
    if v.Composite? && w.Composite? && |v.elems| == |t.children| {
      if t.mmsName == MAG {
        if v.elems != [] {
          MagTailsAreIgnored(v.elems[0], w.elems[0], t.children[0]);
        }
      } else {
        MagTailsAreIgnoredEach(v.elems, w.elems, t.children);
      }
    }
  }

  lemma {:induction false} MagTailsAreIgnoredEach(vs: seq<MmsValue>, ws: seq<MmsValue>, names: seq<NameTree>)
    requires |vs| == |ws| == |names|
    requires forall i :: 0 <= i < |vs| ==> SameButMagTails(vs[i], ws[i], names[i])
    ensures ConvertEach(vs, names) == ConvertEach(ws, names)
  {
    if vs != [] {
      MagTailsAreIgnored(vs[0], ws[0], names[0]);
      MagTailsAreIgnoredEach(vs[1..], ws[1..], names[1..]);
    }
  }

  // ---------------------------------------------------------------- names

  /** No node of the datapoint, at any depth, has a name that is a key of the mapping. */
  predicate NoMappedName(d: Tree) {
    && d.name !in DO_READING_MAPPING
    && (d.DictNode? ==> forall i :: 0 <= i < |d.children| && d.children[i].Some? ==> NoMappedName(d.children[i].value))
  }

  /** The six names that are mapped; every other name stays. */
  lemma MappedNames(name: string)
    ensures Mapped("cdc") == "do_type" && Mapped("q") == "do_quality" && Mapped("t") == "do_ts"
    ensures Mapped("stVal") == Mapped("mag.value") == Mapped("mag.f") == "do_value"
    ensures name !in {"cdc", "q", "t", "stVal", "mag.value", "mag.f"} ==> Mapped(name) == name
  {
  }

  /** A `mag` structure stands for its first element, under the name `mag.` and that of the element, mapped. */
  lemma MagStandsForFirst(kind: CompositeKind, elems: seq<MmsValue>, names: seq<NameTree>)
    requires |elems| == |names| && elems != [] && Convert(elems[0], names[0]).Done? && !elems[0].AccessError?
    ensures var inner := Convert(elems[0], names[0]);
            && inner.value.Some?
            && Convert(Composite(kind, elems), NameTree("mag", names))
                 == Done(Some(WithName(inner.value.value, Mapped("mag." + inner.value.value.name))))
  {
    ConvertsIffMatches(elems[0], names[0]);
    var name := Convert(elems[0], names[0]).value.value.name;
    assert MAG + "." + name == "mag." + name;
  }

  lemma MappedIsNoKey(name: string)
    ensures Mapped(name) !in DO_READING_MAPPING
  {
  }

  /** Every exported node is renamed, and only a structure named `mag` takes its name from elsewhere than
      its own node. */
  lemma {:induction false} ConversionNames(v: MmsValue, t: NameTree)
    requires Convert(v, t).Done? && Convert(v, t).value.Some?
    ensures NoMappedName(Convert(v, t).value.value)
    ensures !(v.Composite? && t.mmsName == MAG) ==> Convert(v, t).value.value.name == Mapped(t.mmsName)
  {
    MappedIsNoKey(t.mmsName);
    if v.Composite? {
      if t.mmsName == MAG {
        var inner := Convert(v.elems[0], t.children[0]).value.value;
        ConversionNames(v.elems[0], t.children[0]);
        MappedIsNoKey(MAG + "." + inner.name);
      } else {
        var ds := ConvertEach(v.elems, t.children).value;
        forall i | 0 <= i < |ds| && ds[i].Some?
          ensures NoMappedName(ds[i].value)
        {
          ConvertEachAt(v.elems, t.children, i);
          ConversionNames(v.elems[i], t.children[i]);
        }
      }
    }
  }

  // ---------------------------------------------------------------- the type of the data object

  /** A structured datapoint gets a first child that tells the type of the data object. */
  function WithType(d: Option<Tree>, doType: string): Option<Tree> {
    if d.Some? && d.value.DictNode?
    then Some(d.value.(children := [Some(LeafNode("do_type", TextLeaf(doType)))] + d.value.children))
    else d
  }

  function NodeCount(d: Option<Tree>): nat {
    match d
    case None => 0
    case Some(LeafNode(_, _)) => 1
    case Some(DictNode(_, children)) => 1 + NodeCountEach(children)
  }

  function NodeCountEach(ds: seq<Option<Tree>>): nat {
    if ds == [] then 0 else NodeCount(ds[0]) + NodeCountEach(ds[1..])
  }

  /** It is one node more: a leaf `do_type` with that text, at index 0; the other children keep their order, one place
      further, and a datapoint that is not structured stays as it is. */
  lemma WithTypeAddsOneNode(d: Tree, doType: string)
    ensures d.DictNode? ==>
              WithType(Some(d), doType) == Some(DictNode(d.name, [Some(LeafNode("do_type", TextLeaf(doType)))] + d.children))
    ensures d.LeafNode? ==> WithType(Some(d), doType) == Some(d)
    ensures WithType(None, doType) == None
    ensures NodeCount(WithType(Some(d), doType)) == NodeCount(Some(d)) + if d.DictNode? then 1 else 0
    ensures NoMappedName(d) ==> NoMappedName(WithType(Some(d), doType).value)
  {
    if d.DictNode? {
      var typed := WithType(Some(d), doType).value;
      assert typed.children[1..] == d.children;
      assert NodeCountEach(typed.children) == NodeCount(typed.children[0]) + NodeCountEach(d.children);
      assert forall i :: 1 <= i < |typed.children| ==> typed.children[i] == d.children[i - 1];
    }
  }

  /** The conversion of a data object: a null value gives the null datapoint, whatever the name tree. */
  function ConvertObject(v: MmsValue, tree: Option<NameTree>, doType: string): Outcome<Option<Tree>> {
    if v.Missing? then Done(None)
    else
      match Build(v, tree)
      case Done(d) => Done(WithType(d, doType))
      case other => other
  }

  /** What a data object is exported as: a name that is never a mapping key, and the mapped label unless a
      structure is labelled `mag`. */
  lemma ObjectNames(v: MmsValue, tree: NameTree, doType: string)
    requires ConvertObject(v, Some(tree), doType).Done? && ConvertObject(v, Some(tree), doType).value.Some?
    ensures var d := ConvertObject(v, Some(tree), doType).value.value;
            && NoMappedName(d)
            && (tree.mmsName != MAG ==> d.name == Mapped(tree.mmsName))
  {
    ConversionNames(v, tree);
    WithTypeAddsOneNode(Convert(v, tree).value.value, doType);
  }

  /** How the conversion of a data object ends: null for a null value, whatever the names; a throw without names; and
      otherwise as the conversion of the value does, with the type added. */
  lemma ObjectOutcomes(v: MmsValue, tree: Option<NameTree>, doType: string)
    ensures v.Missing? ==> ConvertObject(v, tree, doType) == Done(None)
    ensures !v.Missing? && tree.None? ==> ConvertObject(v, tree, doType) == Throws(NameNodeIsNull)
    ensures !v.Missing? && tree.Some? ==>
              && (ConvertObject(v, tree, doType).Undefined? <==> ReachesBadMag(v, tree.value))
              && (forall e :: ConvertObject(v, tree, doType) == Throws(e) <==> ReachesError(v, tree.value, e))
              && (Convert(v, tree.value).Done? ==>
                    ConvertObject(v, tree, doType) == Done(WithType(Convert(v, tree.value).value, doType)))
  {
    if !v.Missing? && tree.Some? {
      UndefinedExactly(v, tree.value);
      forall e
        ensures Convert(v, tree.value) == Throws(e) <==> ReachesError(v, tree.value, e)
      {
        ThrowsExactly(v, tree.value, e);
      }
    }
  }

  // ---------------------------------------------------------------- the data objects that the plugin is for

  function NameOnly(name: string): NameTree {
    NameTree(name, [])
  }

  /** Status, quality and time of a single point status (section 7.3.2 of IEC 61850-7-3:2010). */
  lemma SinglePointStatus(name: string, status: bool, quality: string, time: uint32, doType: string)
    requires name != "mag"
    ensures ConvertObject(Composite(Structure, [Boolean(status), BitString(quality), UtcTime(time)]),
                          Some(NameTree(name, [NameOnly("stVal"), NameOnly("q"), NameOnly("t")])), doType)
              == Done(Some(DictNode(Mapped(name), [
                   Some(LeafNode("do_type", TextLeaf(doType))),
                   Some(LeafNode("do_value", IntLeaf(if status then 1 else 0))),
                   Some(LeafNode("do_quality", TextLeaf(quality))),
                   Some(LeafNode("do_ts", IntLeaf(time)))])))
  {
    var elems := [Boolean(status), BitString(quality), UtcTime(time)];
    var names := [NameOnly("stVal"), NameOnly("q"), NameOnly("t")];
    ThreeAttributes(name, elems, names, doType, LeafNode("do_value", IntLeaf(if status then 1 else 0)),
                    LeafNode("do_quality", TextLeaf(quality)), LeafNode("do_ts", IntLeaf(time)));
  }

  /** Magnitude, quality and time of a measured value (section 7.4.2 of IEC 61850-7-3:2010). */
  lemma MeasuredValue(name: string, f: real, quality: string, time: uint32, doType: string)
    requires name != "mag"
    ensures ConvertObject(Composite(Structure, [Composite(Structure, [Floating(f)]), BitString(quality), UtcTime(time)]),
                          Some(NameTree(name, [NameTree("mag", [NameOnly("f")]), NameOnly("q"), NameOnly("t")])), doType)
              == Done(Some(DictNode(Mapped(name), [
                   Some(LeafNode("do_type", TextLeaf(doType))),
                   Some(LeafNode("do_value", FloatLeaf(f))),
                   Some(LeafNode("do_quality", TextLeaf(quality))),
                   Some(LeafNode("do_ts", IntLeaf(time)))])))
  {
    var elems := [Composite(Structure, [Floating(f)]), BitString(quality), UtcTime(time)];
    var names := [NameTree("mag", [NameOnly("f")]), NameOnly("q"), NameOnly("t")];
    assert Convert(Floating(f), NameOnly("f")) == Done(Some(LeafNode("f", FloatLeaf(f))));
    MagStandsForFirst(Structure, [Floating(f)], [NameOnly("f")]);
    assert "mag." + "f" == "mag.f";
    ThreeAttributes(name, elems, names, doType, LeafNode("do_value", FloatLeaf(f)),
                    LeafNode("do_quality", TextLeaf(quality)), LeafNode("do_ts", IntLeaf(time)));
  }

  lemma OneMoreInFront(elems: seq<MmsValue>, names: seq<NameTree>, d: Tree, rest: seq<Option<Tree>>)
    requires |elems| == |names| && elems != []
    requires Convert(elems[0], names[0]) == Done(Some(d)) && ConvertEach(elems[1..], names[1..]) == Done(rest)
    ensures ConvertEach(elems, names) == Done([Some(d)] + rest)
  {
  }

  lemma ThreeAttributes(name: string, elems: seq<MmsValue>, names: seq<NameTree>, doType: string, a: Tree, b: Tree, c: Tree)
    requires name != MAG && |elems| == |names| == 3
    requires Convert(elems[0], names[0]) == Done(Some(a)) && Convert(elems[1], names[1]) == Done(Some(b))
    requires Convert(elems[2], names[2]) == Done(Some(c))
    ensures ConvertObject(Composite(Structure, elems), Some(NameTree(name, names)), doType)
              == Done(Some(DictNode(Mapped(name),
                                    [Some(LeafNode("do_type", TextLeaf(doType))), Some(a), Some(b), Some(c)])))
  {
    assert ConvertEach([], []) == Done([]);
    assert elems[2..][1..] == [] && names[2..][1..] == [];
    OneMoreInFront(elems[2..], names[2..], c, []);
    assert elems[1..][1..] == elems[2..] && names[1..][1..] == names[2..];
    OneMoreInFront(elems[1..], names[1..], b, [Some(c)] + []);
    OneMoreInFront(elems, names, a, [Some(b)] + ([Some(c)] + []));
    hide ConvertEach;
    var typePoint := Some(LeafNode("do_type", TextLeaf(doType)));
    assert [typePoint] + ([Some(a)] + ([Some(b)] + ([Some(c)] + []))) == [typePoint, Some(a), Some(b), Some(c)];
  }
}
