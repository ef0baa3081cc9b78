/** What the configuration of a client is built to from the answers of the server. */
module LocalData {
  import opened Outcomes
  import opened Mms
  import opened Connection
  import opened Selection
  import opened Configuration

  // ---------------------------------------------------------------- configurations and their views

  ghost function ViewOf(c: DatapointConfig): Entry
    reads c.mmsNameTree
  {
    Entry(c.dpLabel, c.datapointType, c.typeId, c.dataPath, c.fc,
          if c.mmsNameTree == null then None else Some(c.mmsNameTree.View()))
  }

  /** An entry has the parts of its configuration, and the name tree that its node stands for. */
  lemma ViewHasParts(c: DatapointConfig)
    ensures var e := ViewOf(c);
            && e.dpLabel == c.dpLabel && e.datapointType == c.datapointType && e.typeId == c.typeId
            && e.dataPath == c.dataPath && e.fc == c.fc
            && (c.mmsNameTree == null ==> e.tree == None)
            && (c.mmsNameTree != null ==> e.tree == Some(NameTree(c.mmsNameTree.mmsName, c.mmsNameTree.children)))
  {
  }

  ghost function NodesOf(cs: seq<DatapointConfig>): set<MmsNameNode?> {
    set i | 0 <= i < |cs| :: cs[i].mmsNameTree
  }

  ghost predicate Views(cs: seq<DatapointConfig>, entries: seq<Entry>)
    reads NodesOf(cs)
  {
    |cs| == |entries| && forall i :: 0 <= i < |cs| ==> cs[i].mmsNameTree in NodesOf(cs) && ViewOf(cs[i]) == entries[i]
  }

  ghost function NodesOfAll(m: map<string, seq<DatapointConfig>>, refs: set<string>): set<MmsNameNode?> {
    set ref, n | ref in refs && ref in m && n in NodesOf(m[ref]) :: n
  }

  /** The datasets have these views. */
  ghost predicate ViewsAll(m: map<string, seq<DatapointConfig>>, views: map<string, seq<Entry>>)
    reads NodesOfAll(m, views.Keys)
  {
    views.Keys <= m.Keys &&
    forall ref :: ref in views ==> NodesOf(m[ref]) <= NodesOfAll(m, views.Keys) && Views(m[ref], views[ref])
  }

  lemma OneMoreDataset(m: map<string, seq<DatapointConfig>>, views: map<string, seq<Entry>>, ref: string,
                       cs: seq<DatapointConfig>, entries: seq<Entry>)
    requires ViewsAll(m, views) && Views(cs, entries)
    ensures ViewsAll(m[ref := cs], views[ref := entries])
  {
  }

  /** Every configuration has a name tree, and shares it with no other. */
  ghost predicate OwnRoots(cs: seq<DatapointConfig>) {
    && (forall i :: 0 <= i < |cs| ==> cs[i].mmsNameTree != null)
    && (forall i, j :: 0 <= i < j < |cs| ==> cs[i].mmsNameTree != cs[j].mmsNameTree)
  }

  lemma OneMoreView(cs: seq<DatapointConfig>, entries: seq<Entry>, c: DatapointConfig)
    requires OwnRoots(cs) && Views(cs, entries) && c.mmsNameTree != null && c.mmsNameTree !in NodesOf(cs)
    ensures OwnRoots(cs + [c]) && Views(cs + [c], entries + [ViewOf(c)])
    ensures NodesOf(cs + [c]) == NodesOf(cs) + {c.mmsNameTree}
  {
    var all := cs + [c];
    assert all[|cs|] == c && forall i :: 0 <= i < |cs| ==> all[i] == cs[i] && cs[i].mmsNameTree in NodesOf(cs);
    forall n | n in NodesOf(cs) + {c.mmsNameTree}
      ensures n in NodesOf(all)
    {
      if n in NodesOf(cs) {
        var i :| 0 <= i < |cs| && cs[i].mmsNameTree == n;
        assert all[i].mmsNameTree == n;
      } else {
        assert all[|cs|].mmsNameTree == n;
      }
    }
  }

  /** The entry of a locally copied datapoint once its name tree is built. */
  function LocalEntry(e: Entry, nodes: seq<NameTree>): Entry {
    e.(tree := Some(NameTree(e.dpLabel, nodes)))
  }

  /** The entry that a selection of the configuration stands for. */
  function EntryOf(c: DatapointConfig): Entry {
    Entry(c.dpLabel, c.datapointType, c.typeId, c.dataPath, c.fc, None)
  }

  function EntriesOf(cs: seq<DatapointConfig>): (entries: seq<Entry>)
    ensures |entries| == |cs| && forall i :: 0 <= i < |cs| ==> entries[i] == EntryOf(cs[i])
  {
    seq(|cs|, i requires 0 <= i < |cs| => EntryOf(cs[i]))
  }

  // ---------------------------------------------------------------- what a dataset is built to

  function MembersOf(model: DataModel, datasetRef: string): seq<string> {
    if datasetRef in model.datasets then model.datasets[datasetRef] else []
  }

  /** The names below the path of each member. */
  function MemberNames(model: DataModel, members: seq<string>, fcOf: string -> FunctionalConstraint): (r: seq<seq<NameTree>>)
    ensures |r| == |members|
    ensures forall i :: 0 <= i < |members| ==> r[i] == Names(model, PathPart(members[i]), fcOf(ConstraintPart(members[i])))
  {
    if members == [] then []
    else [Names(model, PathPart(members[0]), fcOf(ConstraintPart(members[0])))] + MemberNames(model, members[1..], fcOf)
  }

  /** The entries of a dataset over a link that stays up. They depend on the server and the selection only. */
  ghost function SteadyDataset(model: DataModel, datasetRef: string, selection: seq<DatapointConfig>,
                               fcOf: string -> FunctionalConstraint): seq<Entry>
  {
    var members := MembersOf(model, datasetRef);
    DatasetEntries(members, EntriesOf(selection), fcOf, MemberNames(model, members, fcOf))
  }

  ghost predicate SizesFit(model: DataModel) {
    forall ref, i :: ref in model.datasets && 0 <= i < |model.datasets[ref]| ==> |model.datasets[ref][i]| <= MAX_SIZE
  }

  /** What a dataset is built to over any link: the members may be missing, and so may names below them. */
  ghost predicate BuiltFrom(entries: seq<Entry>, members: seq<string>, nodes: seq<seq<NameTree>>, model: DataModel,
                            datasetRef: string, selection: seq<DatapointConfig>, fcOf: string -> FunctionalConstraint)
  {
    && (members == [] || members == MembersOf(model, datasetRef)) && |nodes| == |members|
    && entries == DatasetEntries(members, EntriesOf(selection), fcOf, nodes)
    && PrunesEach(nodes, MemberNames(model, members, fcOf))
  }

  ghost predicate Built(entries: seq<Entry>, model: DataModel, datasetRef: string, selection: seq<DatapointConfig>,
                        fcOf: string -> FunctionalConstraint)
  {
    exists members, nodes :: BuiltFrom(entries, members, nodes, model, datasetRef, selection, fcOf)
  }

  ghost predicate PrunesEach(parts: seq<seq<NameTree>>, full: seq<seq<NameTree>>) {
    |parts| <= |full| && forall i :: 0 <= i < |parts| ==> Prunes(parts[i], full[i])
  }

  lemma PrunesOneMore(parts: seq<seq<NameTree>>, full: seq<seq<NameTree>>, part: seq<NameTree>)
    requires PrunesEach(parts, full) && |parts| < |full| && Prunes(part, full[|parts|])
    ensures PrunesEach(parts + [part], full)
  {
  }

  /** The entries and the names made so far for the members of a dataset. */
  ghost predicate Progress(members: seq<string>, selection: seq<Entry>, fcOf: string -> FunctionalConstraint,
                           model: DataModel, views: seq<Entry>, nodes: seq<seq<NameTree>>)
  {
    && |nodes| <= |members| && views == MemberEntries(members[..|nodes|], selection, fcOf, nodes)
    && PrunesEach(nodes, MemberNames(model, members, fcOf))
  }

  lemma ProgressOneMore(members: seq<string>, selection: seq<Entry>, fcOf: string -> FunctionalConstraint,
                        model: DataModel, views: seq<Entry>, nodes: seq<seq<NameTree>>, made: seq<NameTree>)
    requires Progress(members, selection, fcOf, model, views, nodes) && |nodes| < |members|
    requires Prunes(made, MemberNames(model, members, fcOf)[|nodes|])
    ensures Progress(members, selection, fcOf, model,
                     views + [MemberEntry(members[|nodes|], selection, fcOf, made)], nodes + [made])
  {
    PrunesOneMore(nodes, MemberNames(model, members, fcOf), made);
    MemberEntriesOneMore(members, selection, fcOf, nodes, made);
  }

  lemma MemberEntriesOneMore(members: seq<string>, selection: seq<Entry>, fcOf: string -> FunctionalConstraint,
                             nodes: seq<seq<NameTree>>, made: seq<NameTree>)
    requires |nodes| < |members|
    ensures MemberEntries(members[..|nodes| + 1], selection, fcOf, nodes + [made])
              == MemberEntries(members[..|nodes|], selection, fcOf, nodes)
                 + [MemberEntry(members[|nodes|], selection, fcOf, made)]
  {
    var i := |nodes|;
    assert members[..i + 1][..i] == members[..i] && (nodes + [made])[..i] == nodes;
  }

  lemma PrefixOneMore<T>(part: seq<T>, full: seq<T>, x: T)
    requires part <= full && |part| < |full| && x == full[|part|]
    ensures part + [x] <= full
  {
  }

  /** Every label is the name at the root of the entry's name tree. */
  ghost predicate LabelsAreRoots(entries: seq<Entry>) {
    forall i :: 0 <= i < |entries| ==> entries[i].tree.Some? && entries[i].tree.value.mmsName == entries[i].dpLabel
  }

  lemma BuiltLabelsAreRoots(entries: seq<Entry>, model: DataModel, datasetRef: string, selection: seq<DatapointConfig>,
                            fcOf: string -> FunctionalConstraint)
    requires Built(entries, model, datasetRef, selection, fcOf)
    ensures LabelsAreRoots(entries)
  {
    var members, nodes :| BuiltFrom(entries, members, nodes, model, datasetRef, selection, fcOf);
    DatasetLabels(members, EntriesOf(selection), fcOf, nodes);
  }

  /** What it means that entries were built from a model and a selection, over any link: they are those of the members in
      the order of the server, each with the path and the constraint of its member, with a pruning of the names below that
      path, and with the type and the label that the configured selection gives to the path. */
  lemma BuiltMeans(entries: seq<Entry>, model: DataModel, datasetRef: string, selection: seq<DatapointConfig>,
                   fcOf: string -> FunctionalConstraint, i: nat, k: nat)
    requires Built(entries, model, datasetRef, selection, fcOf) && i < |entries|
    ensures datasetRef in model.datasets && |entries| == |model.datasets[datasetRef]|
    ensures var member, e := model.datasets[datasetRef][i], entries[i];
            && e.dataPath == PathPart(member) && e.fc == fcOf(ConstraintPart(member))
            && e.tree.Some? && e.tree.value.mmsName == e.dpLabel
            && Prunes(e.tree.value.children, Names(model, PathPart(member), fcOf(ConstraintPart(member))))
    ensures var e := entries[i];
            IsFirstMatch(EntriesOf(selection), e.dataPath, k) ==>
              && e.datapointType == (if k < |selection| then selection[k].datapointType else "")
              && e.typeId == (if k < |selection| then selection[k].typeId else UNKNOWN_DATAPOINT_TYPE)
              && e.dpLabel == if NoneChosen(model.datasets[datasetRef], EntriesOf(selection)) then DoName(e.dataPath)
                              else if k < |selection| then selection[k].dpLabel else ""
  {
    var members, nodes :| BuiltFrom(entries, members, nodes, model, datasetRef, selection, fcOf);
    hide DatasetEntries, IsSelectedBy, IsFirstMatch, ChosenLabel, NoneChosen, Prunes;
    DatasetLabels(members, EntriesOf(selection), fcOf, nodes);
    if IsFirstMatch(EntriesOf(selection), entries[i].dataPath, k) {
      DatasetTypes(members, EntriesOf(selection), fcOf, nodes, i, k);
      FirstMatchChooses(EntriesOf(selection), entries[i].dataPath, k);
    }
  }

  /** Over a link that stays up no member and no name is missing. */
  lemma SteadyMeans(model: DataModel, datasetRef: string, selection: seq<DatapointConfig>,
                    fcOf: string -> FunctionalConstraint, i: nat)
    ensures var entries := SteadyDataset(model, datasetRef, selection, fcOf);
            && Built(entries, model, datasetRef, selection, fcOf)
            && |entries| == (if datasetRef in model.datasets then |model.datasets[datasetRef]| else 0)
            && (i < |entries| ==>
                  && entries[i].tree.Some?
                  && entries[i].tree.value.children == Names(model, entries[i].dataPath, entries[i].fc))
  {
    var members := MembersOf(model, datasetRef);
    var nodes := MemberNames(model, members, fcOf);
    forall k | 0 <= k < |nodes|
      ensures Prunes(nodes[k], nodes[k])
    {
      PrunesItself(nodes[k]);
    }
    assert BuiltFrom(SteadyDataset(model, datasetRef, selection, fcOf), members, nodes, model, datasetRef, selection, fcOf);
    DatasetLabels(members, EntriesOf(selection), fcOf, nodes);
  }

  lemma {:induction false} PrunesItself(part: seq<NameTree>)
    ensures Prunes(part, part)
  {
    forall i | 0 <= i < |part|
      ensures Prunes(part[i].children, part[i].children)
    {
      PrunesItself(part[i].children);
    }
  }

  ghost predicate LabelsAreRootsAll(views: map<string, seq<Entry>>) {
    forall ref :: ref in views ==> LabelsAreRoots(views[ref])
  }

  /** Every dataset is what the model and the selection determine. */
  ghost predicate SteadyAll(views: map<string, seq<Entry>>, model: DataModel, selection: map<string, seq<DatapointConfig>>,
                            fcOf: string -> FunctionalConstraint)
  {
    && views.Keys <= selection.Keys
    && forall ref :: ref in views ==> views[ref] == SteadyDataset(model, ref, selection[ref], fcOf)
  }

  lemma MergeOneMore<K, V>(m: map<K, V>, n: map<K, V>, k: K, v: V)
    ensures (m + n)[k := v] == m + n[k := v]
  {
  }

  lemma SteadyOneMore(views: map<string, seq<Entry>>, model: DataModel, selection: map<string, seq<DatapointConfig>>,
                      fcOf: string -> FunctionalConstraint, ref: string, entries: seq<Entry>)
    requires SteadyAll(views, model, selection, fcOf)
    requires ref in selection && entries == SteadyDataset(model, ref, selection[ref], fcOf)
    ensures SteadyAll(views[ref := entries], model, selection, fcOf)
  {
  }

  /** The local data over a link that stays up. */
  function SteadyLocal(model: DataModel, cs: seq<DatapointConfig>): (r: seq<Entry>)
    ensures |r| == |cs|
    ensures forall i :: 0 <= i < |cs| ==> r[i] == LocalEntry(EntryOf(cs[i]), Names(model, cs[i].dataPath, cs[i].fc))
  {
    if cs == [] then []
    else [LocalEntry(EntryOf(cs[0]), Names(model, cs[0].dataPath, cs[0].fc))] + SteadyLocal(model, cs[1..])
  }

  ghost function SteadyViews(model: DataModel, selection: map<string, seq<DatapointConfig>>,
                             fcOf: string -> FunctionalConstraint): map<string, seq<Entry>>
  {
    map ref | ref in selection :: SteadyDataset(model, ref, selection[ref], fcOf)
  }

  lemma SteadyAllViews(views: map<string, seq<Entry>>, model: DataModel, selection: map<string, seq<DatapointConfig>>,
                       fcOf: string -> FunctionalConstraint)
    requires SteadyAll(views, model, selection, fcOf) && views.Keys == selection.Keys
    ensures views == SteadyViews(model, selection, fcOf)
  {
  }

  /** The local data is as the copies of the configuration, but for its name trees. */
  ghost predicate SameButTrees(cs: seq<DatapointConfig>, ds: seq<DatapointConfig>) {
    |cs| == |ds| && forall i :: 0 <= i < |cs| ==> EntryOf(cs[i]) == EntryOf(ds[i])
  }

  /** That is: label, type, path and constraint are the same. */
  lemma SameButTreesMeans(cs: seq<DatapointConfig>, ds: seq<DatapointConfig>)
    ensures SameButTrees(cs, ds) <==>
              && |cs| == |ds|
              && forall i :: 0 <= i < |cs| ==>
                   && cs[i].dpLabel == ds[i].dpLabel && cs[i].dataPath == ds[i].dataPath && cs[i].fc == ds[i].fc
                   && cs[i].datapointType == ds[i].datapointType && cs[i].typeId == ds[i].typeId
  {
    if SameButTrees(cs, ds) {
      assert forall i :: 0 <= i < |cs| ==> EntryOf(cs[i]) == EntryOf(ds[i]);
    }
  }

  lemma SteadyLocalIgnoresTrees(model: DataModel, cs: seq<DatapointConfig>, ds: seq<DatapointConfig>)
    requires SameButTrees(cs, ds)
    ensures SteadyLocal(model, cs) == SteadyLocal(model, ds)
  {
  }

  ghost predicate RootsNamed(cs: seq<DatapointConfig>)
    reads NodesOf(cs)
  {
    forall i :: 0 <= i < |cs| ==>
      cs[i].mmsNameTree in NodesOf(cs) && cs[i].mmsNameTree != null && cs[i].mmsNameTree.mmsName == cs[i].dpLabel
  }

  /** Every name tree that there is carries its label at the root. */
  ghost predicate RootsAgree(cs: seq<DatapointConfig>)
    reads NodesOf(cs)
  {
    forall i :: 0 <= i < |cs| ==>
      && cs[i].mmsNameTree in NodesOf(cs)
      && (cs[i].mmsNameTree != null ==> cs[i].mmsNameTree.mmsName == cs[i].dpLabel)
  }

  ghost predicate RootsAgreeAll(m: map<string, seq<DatapointConfig>>)
    reads NodesOfAll(m, m.Keys)
  {
    forall ref :: ref in m ==> NodesOf(m[ref]) <= NodesOfAll(m, m.Keys) && RootsAgree(m[ref])
  }

  lemma AgreementInViews(cs: seq<DatapointConfig>, entries: seq<Entry>)
    requires Views(cs, entries)
    ensures RootsAgree(cs) <==> RootsAreLabels(entries)
  {
    assert forall i :: 0 <= i < |cs| ==> cs[i].mmsNameTree in NodesOf(cs) && ViewOf(cs[i]) == entries[i];
  }

  lemma AgreementInAllViews(m: map<string, seq<DatapointConfig>>, views: map<string, seq<Entry>>)
    requires ViewsAll(m, views) && views.Keys == m.Keys
    ensures RootsAgreeAll(m) <==> forall ref :: ref in views ==> RootsAreLabels(views[ref])
  {
    forall ref | ref in m
      ensures RootsAgree(m[ref]) <==> RootsAreLabels(views[ref])
    {
      AgreementInViews(m[ref], views[ref]);
    }
  }

  lemma MergeKeepsViews(before: map<string, seq<DatapointConfig>>, made: map<string, seq<DatapointConfig>>,
                        views: map<string, seq<Entry>>)
    requires ViewsAll(made, views)
    ensures ViewsAll(before + made, views)
  {
  }
}
