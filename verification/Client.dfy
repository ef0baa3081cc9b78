/** A client: building its configuration from the server's answers, connecting, reading and sending. */
module Client {
  import opened Outcomes
  import opened Mms
  import opened Connection
  import opened Datapoints
  import opened Selection
  import opened Configuration
  import opened Readings
  import opened LocalData

  /** The order in which a map holds its keys: each of them once. */
  ghost predicate Lists(order: seq<string>, keys: set<string>) {
    && (forall i, j :: 0 <= i < j < |order| ==> order[i] != order[j])
    && (forall i :: 0 <= i < |order| ==> order[i] in keys)
    && (forall key :: key in keys ==> key in order)
  }

  /** What a poll in this mode sends, from call `clock` on. */
  function ModePoll(mode: ReadMode, answers: Answers, entries: seq<Entry>, views: map<string, seq<Entry>>,
                    order: seq<string>, clock: nat): Poll
    requires forall i :: 0 <= i < |order| ==> order[i] in views
  {
    match mode
    case DATASET_READING => DatasetsPoll(answers, views, order, clock)
    case DO_READING => PollOf(entries, ObjectValues(answers, entries, clock))
  }

  /** How it leaves the connection. */
  function AfterModePoll(mode: ReadMode, answers: Answers, entries: seq<Entry>, views: map<string, seq<Entry>>,
                         order: seq<string>, now: Standing): Standing
    requires forall i :: 0 <= i < |order| ==> order[i] in views
  {
    match mode
    case DATASET_READING => AfterDatasets(answers, views, order, now)
    case DO_READING => AfterObjects(answers, entries, now)
  }

  /** The poll gets to a value that leads to a degenerate `mag` structure or, in dataset mode, to a dataset that is
      read over a link found down. */
  predicate ModePollIsBad(mode: ReadMode, answers: Answers, entries: seq<Entry>, views: map<string, seq<Entry>>,
                          order: seq<string>, clock: nat)
    requires forall i :: 0 <= i < |order| ==> order[i] in views
  {
    match mode
    case DATASET_READING => DatasetsPollIsBad(answers, views, order, clock)
    case DO_READING => PollIsBad(entries, ObjectValues(answers, entries, clock))
  }

  /** That is exactly when its behaviour is undefined. */
  lemma ModePollUndefinedExactly(mode: ReadMode, answers: Answers, entries: seq<Entry>, views: map<string, seq<Entry>>,
                                 order: seq<string>, clock: nat)
    requires forall i :: 0 <= i < |order| ==> order[i] in views
    ensures ModePoll(mode, answers, entries, views, order, clock).end.Undefined? <==>
              ModePollIsBad(mode, answers, entries, views, order, clock)
  {
    hide DatasetsPoll, PollOf, ObjectValues, DatasetsPollIsBad, PollIsBad;
    DatasetsPollUndefinedExactly(answers, views, order, clock);
    PollUndefinedExactly(entries, ObjectValues(answers, entries, clock));
  }

  /** Every reading that the poll sends is named for the entry that it comes from. */
  ghost predicate ModeNamed(mode: ReadMode, answers: Answers, entries: seq<Entry>, views: map<string, seq<Entry>>,
                            order: seq<string>, clock: nat)
    requires forall i :: 0 <= i < |order| ==> order[i] in views
  {
    forall r :: r in ModePoll(mode, answers, entries, views, order, clock).sent ==>
      match mode
      case DATASET_READING => NamedInDatasets(r, answers, views, order, clock)
      case DO_READING => NamedAmong(r, entries, ObjectValues(answers, entries, clock))
  }

  lemma ModePollNames(mode: ReadMode, answers: Answers, entries: seq<Entry>, views: map<string, seq<Entry>>,
                      order: seq<string>, clock: nat)
    requires RootsAreLabels(entries) && forall i :: 0 <= i < |order| ==> order[i] in views && RootsAreLabels(views[order[i]])
    ensures ModeNamed(mode, answers, entries, views, order, clock)
  {
    hide DatasetsPoll, PollOf, ObjectValues, NamedInDatasets, NamedAmong;
    PollNames(entries, ObjectValues(answers, entries, clock));
    DatasetsPollNames(answers, views, order, clock);
  }

  /** Each of these connections found its link down at this call, after it was opened and tested once. */
  ghost predicate FoundDown(attempts: seq<Answers>, tests: seq<nat>) {
    |tests| <= |attempts| && forall n :: 0 <= n < |tests| ==> tests[n] > 1 && !attempts[n].isUp(tests[n])
  }

  lemma OneMoreFoundDown(attempts: seq<Answers>, tests: seq<nat>, test: nat)
    ensures FoundDown(attempts, [])
    ensures FoundDown(attempts, tests) && |tests| < |attempts| && test > 1 && !attempts[|tests|].isUp(test) ==>
              FoundDown(attempts, tests + [test])
  {
  }

  /** What is recorded since the connection was opened: the error code of the last directory call of the build, and of
      the opening itself if there was none. `tests` tests have followed. */
  ghost predicate RecordsOpening(c: IEC61850ClientConnection, tests: nat)
    reads c
  {
    c.clock >= tests
    && Follows(c.answers, Standing(2, c.answers.error(0)), Standing(c.clock - tests, c.networkStackError))
  }

  class IEC61850Client {
    /** A reference: the client reads the parameters of the configuration where they are. */
    const config: IEC61850ClientConfig
    const serverKey: string
    const gateway: Gateway?
    /** The library's reading of the name of a functional constraint. */
    const fcOf: string -> FunctionalConstraint
    /** What the configuration held when the client was made. */
    ghost const seen: ConfigView

    var localExchangedData: seq<DatapointConfig>
    var localExchangedDatasets: map<string, seq<DatapointConfig>>
    var connection: IEC61850ClientConnection?

    constructor (gateway: Gateway?, config: IEC61850ClientConfig, serverKey: string, fcOf: string -> FunctionalConstraint)
      ensures this.gateway == gateway && this.config == config && this.serverKey == serverKey && this.fcOf == fcOf
      ensures seen == config.View() && connection == null
      ensures localExchangedData == config.exchangedData && localExchangedDatasets == map[] && Consistent()
    {
      this.gateway, this.config, this.serverKey, this.fcOf := gateway, config, serverKey, fcOf;
      seen, connection := config.View(), null;
      localExchangedData, localExchangedDatasets := [], map[];
      new;
      var i := 0;
      while i < |config.exchangedData|
        invariant 0 <= i <= |config.exchangedData| && localExchangedData == config.exchangedData[..i]
        invariant localExchangedDatasets == map[] && connection == null
      {
        localExchangedData := localExchangedData + [config.exchangedData[i]];
        i := i + 1;
      }
    }

    /** Builds the name tree of every locally copied datapoint; their other parts do not change. */
    method BuildLocalTrees() returns (ghost nodes: seq<seq<NameTree>>)
      requires connection != null
      modifies this`localExchangedData, connection
      ensures |localExchangedData| == |old(localExchangedData)| == |nodes|
      ensures forall i :: 0 <= i < |nodes| ==>
                && localExchangedData[i].mmsNameTree != null && fresh(localExchangedData[i].mmsNameTree)
                && ViewOf(localExchangedData[i]) == LocalEntry(EntryOf(old(localExchangedData)[i]), nodes[i])
      ensures forall i :: 0 <= i < |nodes| ==>
                var e := old(localExchangedData)[i];
                Prunes(nodes[i], Names(connection.answers.model, e.dataPath, e.fc))
      ensures connection.clock >= old(connection.clock)
      ensures Follows(connection.answers, old(connection.Now()), connection.Now())
      ensures UpDuring(connection.answers, old(connection.clock), connection.clock) ==>
                forall i :: 0 <= i < |nodes| ==>
                  var e := old(localExchangedData)[i];
                  nodes[i] == Names(connection.answers.model, e.dataPath, e.fc)
    {
      hide Follows;
      FollowsAtOnce(connection.answers, connection.Now());
      nodes := [];
      var i := 0;
      while i < |localExchangedData|
        invariant 0 <= i == |nodes| <= |localExchangedData| == |old(localExchangedData)|
        invariant forall k :: i <= k < |localExchangedData| ==> localExchangedData[k] == old(localExchangedData)[k]
        invariant forall k :: 0 <= k < i ==>
                    && localExchangedData[k].mmsNameTree != null && fresh(localExchangedData[k].mmsNameTree)
                    && ViewOf(localExchangedData[k]) == LocalEntry(EntryOf(old(localExchangedData)[k]), nodes[k])
        invariant forall k :: 0 <= k < i ==>
                    var e := old(localExchangedData)[k];
                    Prunes(nodes[k], Names(connection.answers.model, e.dataPath, e.fc))
        invariant connection.clock >= old(connection.clock)
        invariant Follows(connection.answers, old(connection.Now()), connection.Now())
        invariant UpDuring(connection.answers, old(connection.clock), connection.clock) ==>
                    forall k :: 0 <= k < i ==>
                      var e := old(localExchangedData)[k];
                      nodes[k] == Names(connection.answers.model, e.dataPath, e.fc)
      {
        ghost var before := connection.Now();
        var dpConfig := localExchangedData[i];
        var mmsNameTree, made := BuildTree(dpConfig.dataPath, dpConfig.fc);
        FollowInTurn(connection.answers, old(connection.Now()), before, connection.Now());
        mmsNameTree.mmsName := dpConfig.dpLabel;
        localExchangedData := localExchangedData[i := dpConfig.(mmsNameTree := mmsNameTree)];
        nodes := nodes + [made];
        i := i + 1;
      }
    }

    /** A new name tree for a path. */
    method BuildTree(path: string, fc: FunctionalConstraint) returns (mmsNameTree: MmsNameNode, ghost nodes: seq<NameTree>)
      requires connection != null
      modifies connection
      ensures fresh(mmsNameTree) && mmsNameTree.View() == NameTree("", nodes)
      ensures Prunes(nodes, Names(connection.answers.model, path, fc))
      ensures connection.clock >= old(connection.clock)
      ensures Follows(connection.answers, old(connection.Now()), connection.Now())
      ensures UpDuring(connection.answers, old(connection.clock), connection.clock) ==>
                nodes == Names(connection.answers.model, path, fc)
    {
      ghost var clock, error := connection.clock, connection.networkStackError;
      mmsNameTree := new MmsNameNode();
      connection.BuildNameTree(path, fc, mmsNameTree);
      nodes := Walk(connection.answers, path, fc, clock, error).nodes;
      WalkPrunesNames(connection.answers, path, fc, clock, error);
      FollowsWalk(connection.answers, path, fc, Standing(clock, error));
      if UpDuring(connection.answers, clock, connection.clock) {
        WalkFindsNames(connection.answers, path, fc, clock, error);
      }
    }

    /** The first entry of the selection whose name occurs, after a dot, in the path. */
    method FindSelected(doPath: string, selection: seq<DatapointConfig>) returns (k: Option<nat>)
      requires |doPath| <= MAX_SIZE
      ensures k == FirstMatch(EntriesOf(selection), doPath)
    {
      ghost var entries := EntriesOf(selection);
      var i := 0;
      while i < |selection|
        invariant 0 <= i <= |selection|
        invariant forall j :: 0 <= j < i ==> !IsSelectedBy(doPath, entries[j])
      {
        var pos := Find(doPath, "." + selection[i].dataPath);
        if pos != NPOS {
          assert IsSelectedBy(doPath, entries[i]);
          return Some(i);
        }
        i := i + 1;
      }
      k := None;
    }

    /** The entry of one member of a dataset. */
    method BuildMember(doPathWithFC: string, selection: seq<DatapointConfig>)
      returns (newDpConfig: DatapointConfig, ghost nodes: seq<NameTree>)
      requires connection != null && |doPathWithFC| <= MAX_SIZE
      modifies connection
      ensures newDpConfig.mmsNameTree != null && fresh(newDpConfig.mmsNameTree)
      ensures ViewOf(newDpConfig) == MemberEntry(doPathWithFC, EntriesOf(selection), fcOf, nodes)
      ensures var full := Names(connection.answers.model, PathPart(doPathWithFC), fcOf(ConstraintPart(doPathWithFC)));
              && Prunes(nodes, full)
              && (UpDuring(connection.answers, old(connection.clock), connection.clock) ==> nodes == full)
      ensures connection.clock >= old(connection.clock)
      ensures Follows(connection.answers, old(connection.Now()), connection.Now())
    {
      ExtractionNeverThrows(doPathWithFC);
      var doPath := Substr(doPathWithFC, 0, IndexOf(doPathWithFC, '[')).value;
      var functionalConstraintStrLen := Wrap(IndexOf(doPathWithFC, ']') - IndexOf(doPathWithFC, '[') - 1);
      var functionalConstraintStr :=
        Substr(doPathWithFC, Wrap(IndexOf(doPathWithFC, '[') + 1), functionalConstraintStrLen).value;
      newDpConfig := DatapointConfig("", "", UNKNOWN_DATAPOINT_TYPE, doPath, fcOf(functionalConstraintStr), null);
      var mmsNameTree;
      mmsNameTree, nodes := BuildTree(doPath, newDpConfig.fc);
      newDpConfig := newDpConfig.(mmsNameTree := mmsNameTree);
      var k := FindSelected(doPath, selection);
      if k.Some? {
        var selectedDO := selection[k.value];
        newDpConfig := newDpConfig.(dpLabel := selectedDO.dpLabel);
        mmsNameTree.mmsName := selectedDO.dpLabel;
        newDpConfig := newDpConfig.(datapointType := selectedDO.datapointType, typeId := selectedDO.typeId);
      }
    }

    /** Gives an entry the last component of its path for label, in its name tree too. */
    method SelectUnderOwnName(dpConfig: DatapointConfig) returns (r: DatapointConfig)
      modifies dpConfig.mmsNameTree
      ensures r.mmsNameTree == dpConfig.mmsNameTree && ViewOf(r) == Relabelled(old(ViewOf(dpConfig)))
    {
      var afterDot := AfterLastDot(dpConfig.dataPath);
      var doName := "noName";
      if afterDot.Some? {
        doName := afterDot.value;
      }
      r := dpConfig.(dpLabel := doName);
      if r.mmsNameTree != null {
        r.mmsNameTree.mmsName := doName;
      }
    }

    /** When no entry has a label, every entry gets the last component of its path for label. */
    method SelectAll(entries: seq<DatapointConfig>, ghost views: seq<Entry>) returns (r: seq<DatapointConfig>)
      requires OwnRoots(entries) && Views(entries, views)
      modifies NodesOf(entries)
      ensures OwnRoots(r) && NodesOf(r) == NodesOf(entries) && Views(r, RelabelledEach(views))
    {
      assert forall k :: 0 <= k < |entries| ==> entries[k].mmsNameTree in NodesOf(entries) && ViewOf(entries[k]) == views[k];
      r := [];
      var i := 0;
      while i < |entries|
        invariant 0 <= i == |r| <= |entries|
        invariant forall k :: 0 <= k < i ==>
                    r[k].mmsNameTree == entries[k].mmsNameTree && ViewOf(r[k]) == Relabelled(views[k])
        invariant forall k :: i <= k < |entries| ==> ViewOf(entries[k]) == views[k]
      {
        assert forall k :: 0 <= k < |entries| && k != i ==> entries[k].mmsNameTree != entries[i].mmsNameTree;
        var selected := SelectUnderOwnName(entries[i]);
        r := r + [selected];
        i := i + 1;
      }
    }

    /** Appends the entry of one member. */
    method AppendMember(exchangedDataset: seq<DatapointConfig>, doPathWithFC: string, selection: seq<DatapointConfig>,
                        ghost views: seq<Entry>)
      returns (r: seq<DatapointConfig>, ghost view: Entry, ghost nodes: seq<NameTree>)
      requires connection != null && |doPathWithFC| <= MAX_SIZE
      requires OwnRoots(exchangedDataset) && Views(exchangedDataset, views)
      modifies connection
      ensures OwnRoots(r) && Views(r, views + [view]) && fresh(NodesOf(r) - NodesOf(exchangedDataset))
      ensures view == MemberEntry(doPathWithFC, EntriesOf(selection), fcOf, nodes)
      ensures var full := Names(connection.answers.model, PathPart(doPathWithFC), fcOf(ConstraintPart(doPathWithFC)));
              && Prunes(nodes, full)
              && (UpDuring(connection.answers, old(connection.clock), connection.clock) ==> nodes == full)
      ensures connection.clock >= old(connection.clock)
      ensures Follows(connection.answers, old(connection.Now()), connection.Now())
    {
      var newDpConfig;
      newDpConfig, nodes := BuildMember(doPathWithFC, selection);
      view := ViewOf(newDpConfig);
      OneMoreView(exchangedDataset, views, newDpConfig);
      r := exchangedDataset + [newDpConfig];
    }

    /** The entries of the members, before the fallback. */
    method BuildMembers(members: seq<string>, selection: seq<DatapointConfig>)
      returns (exchangedDataset: seq<DatapointConfig>, ghost views: seq<Entry>, ghost nodes: seq<seq<NameTree>>)
      requires connection != null && forall k :: 0 <= k < |members| ==> |members[k]| <= MAX_SIZE
      modifies connection
      ensures |nodes| == |members| && OwnRoots(exchangedDataset) && fresh(NodesOf(exchangedDataset))
      ensures Views(exchangedDataset, views) && views == MemberEntries(members, EntriesOf(selection), fcOf, nodes)
      ensures PrunesEach(nodes, MemberNames(connection.answers.model, members, fcOf))
      ensures connection.clock >= old(connection.clock)
      ensures Follows(connection.answers, old(connection.Now()), connection.Now())
      ensures UpDuring(connection.answers, old(connection.clock), connection.clock) ==>
                nodes == MemberNames(connection.answers.model, members, fcOf)
    {
      hide MemberNames, MemberEntries, Prunes, Follows;
      FollowsAtOnce(connection.answers, connection.Now());
      ghost var start, entries := connection.clock, EntriesOf(selection);
      ghost var full := MemberNames(connection.answers.model, members, fcOf);
      exchangedDataset, views, nodes := [], [], [];
      var i := 0;
      while i < |members|
        invariant i == |nodes| <= |members| && connection.clock >= start
        invariant Follows(connection.answers, old(connection.Now()), connection.Now())
        invariant OwnRoots(exchangedDataset) && fresh(NodesOf(exchangedDataset)) && Views(exchangedDataset, views)
        invariant Progress(members, entries, fcOf, connection.answers.model, views, nodes)
        invariant UpDuring(connection.answers, start, connection.clock) ==> nodes <= full
      {
        ghost var view, made;
        ghost var before := connection.Now();
        exchangedDataset, view, made := AppendMember(exchangedDataset, members[i], selection, views);
        FollowInTurn(connection.answers, old(connection.Now()), before, connection.Now());
        if nodes <= full && made == full[i] {
          PrefixOneMore(nodes, full, made);
        }
        ProgressOneMore(members, entries, fcOf, connection.answers.model, views, nodes, made);
        views, nodes := views + [view], nodes + [made];
        i := i + 1;
      }
      assert members[..i] == members;
    }

    method NoDOSelected(entries: seq<DatapointConfig>, ghost views: seq<Entry>) returns (noDOSelected: bool)
      requires Views(entries, views)
      ensures noDOSelected <==> !SomeLabelled(views)
    {
      noDOSelected := true;
      for i := 0 to |entries|
        invariant noDOSelected && forall k :: 0 <= k < i ==> views[k].dpLabel == ""
      {
        assert ViewOf(entries[i]) == views[i];
        if entries[i].dpLabel != "" {
          noDOSelected := false;
          break;
        }
      }
    }

    /** The entries of one dataset. */
    method BuildDataset(datasetRef: string, selection: seq<DatapointConfig>)
      returns (exchangedDataset: seq<DatapointConfig>, ghost views: seq<Entry>)
      requires connection != null && SizesFit(connection.answers.model)
      modifies connection
      ensures OwnRoots(exchangedDataset) && fresh(NodesOf(exchangedDataset)) && Views(exchangedDataset, views)
      ensures Built(views, connection.answers.model, datasetRef, selection, fcOf)
      ensures connection.clock > old(connection.clock)
      ensures Follows(connection.answers, old(connection.Now()), connection.Now())
      ensures UpDuring(connection.answers, old(connection.clock), connection.clock) ==>
                views == SteadyDataset(connection.answers.model, datasetRef, selection, fcOf)
    {
      ghost var model, start := connection.answers.model, connection.clock;
      hide Follows, MemberNames, MemberEntries, Prunes, SteadyLocal;
      FollowsRead(connection.answers, connection.Now());
      var doPathListWithFC := connection.GetDoPathListWithFCFromDataset(datasetRef);
      ghost var nodes, listed := [], connection.Now();
      exchangedDataset, views, nodes := BuildMembers(doPathListWithFC, selection);
      FollowInTurn(connection.answers, old(connection.Now()), listed, connection.Now());
      var noDOSelected := NoDOSelected(exchangedDataset, views);
      if noDOSelected {
        exchangedDataset := SelectAll(exchangedDataset, views);
        views := RelabelledEach(views);
      }
      assert connection.answers.isUp(start) && connection.answers.isUp(start + 1) ==>
               doPathListWithFC == MembersOf(model, datasetRef);
      assert BuiltFrom(views, doPathListWithFC, nodes, model, datasetRef, selection, fcOf);
    }

    /** Puts the entries of one dataset in place. */
    method BuildDatasetInPlace(datasetRef: string, ghost made: map<string, seq<DatapointConfig>>,
                               ghost views: map<string, seq<Entry>>)
      returns (ghost dataset: seq<DatapointConfig>, ghost entries: seq<Entry>)
      requires connection != null && SizesFit(connection.answers.model)
      requires datasetRef in config.selectedDOInExchangedDatasets && ViewsAll(made, views)
      modifies this`localExchangedDatasets, connection
      ensures localExchangedDatasets == old(localExchangedDatasets)[datasetRef := dataset]
      ensures ViewsAll(made[datasetRef := dataset], views[datasetRef := entries]) && LabelsAreRoots(entries)
      ensures connection.clock >= old(connection.clock)
      ensures Follows(connection.answers, old(connection.Now()), connection.Now())
      ensures UpDuring(connection.answers, old(connection.clock), connection.clock) ==>
                entries == SteadyDataset(connection.answers.model, datasetRef,
                                         config.selectedDOInExchangedDatasets[datasetRef], fcOf)
    {
      var selection := config.selectedDOInExchangedDatasets[datasetRef];
      var exchangedDataset;
      exchangedDataset, entries := BuildDataset(datasetRef, selection);
      BuiltLabelsAreRoots(entries, connection.answers.model, datasetRef, selection, fcOf);
      OneMoreDataset(made, views, datasetRef, exchangedDataset, entries);
      dataset := exchangedDataset;
      localExchangedDatasets := localExchangedDatasets[datasetRef := exchangedDataset];
    }

    /** The datasets of the selection. */
    method BuildDatasets() returns (ghost made: map<string, seq<DatapointConfig>>, ghost views: map<string, seq<Entry>>)
      requires connection != null && SizesFit(connection.answers.model)
      modifies this`localExchangedDatasets, connection
      ensures made.Keys == views.Keys == config.selectedDOInExchangedDatasets.Keys
      ensures localExchangedDatasets == old(localExchangedDatasets) + made && ViewsAll(made, views)
      ensures LabelsAreRootsAll(views)
      ensures connection.clock >= old(connection.clock)
      ensures Follows(connection.answers, old(connection.Now()), connection.Now())
      ensures UpDuring(connection.answers, old(connection.clock), connection.clock) ==>
                SteadyAll(views, connection.answers.model, config.selectedDOInExchangedDatasets, fcOf)
    {
      hide Follows;
      FollowsAtOnce(connection.answers, connection.Now());
      ghost var start := connection.clock;
      var todo := config.selectedDOInExchangedDatasets.Keys;
      made, views := map[], map[];
      while todo != {}
        invariant todo <= config.selectedDOInExchangedDatasets.Keys
        invariant made.Keys == views.Keys == config.selectedDOInExchangedDatasets.Keys - todo
        invariant localExchangedDatasets == old(localExchangedDatasets) + made && ViewsAll(made, views)
        invariant LabelsAreRootsAll(views)
        invariant connection.clock >= start
        invariant Follows(connection.answers, old(connection.Now()), connection.Now())
        invariant UpDuring(connection.answers, start, connection.clock) ==>
                    SteadyAll(views, connection.answers.model, config.selectedDOInExchangedDatasets, fcOf)
        decreases todo
      {
        var datasetRef :| datasetRef in todo;
        ghost var dataset, entries;
        ghost var before := connection.Now();
        dataset, entries := BuildDatasetInPlace(datasetRef, made, views);
        FollowInTurn(connection.answers, old(connection.Now()), before, connection.Now());
        MergeOneMore(old(localExchangedDatasets), made, datasetRef, dataset);
        if UpDuring(connection.answers, start, connection.clock) {
          SteadyOneMore(views, connection.answers.model, config.selectedDOInExchangedDatasets, fcOf, datasetRef, entries);
        }
        made, views := made[datasetRef := dataset], views[datasetRef := entries];
        todo := todo - {datasetRef};
      }
    }

    /** The local copies, after a build: as before but for their name trees, whose roots carry the labels. */
    method BuildLocalData()
      requires connection != null
      modifies this`localExchangedData, connection
      ensures SameButTrees(localExchangedData, old(localExchangedData)) && RootsNamed(localExchangedData)
      ensures connection.clock >= old(connection.clock)
      ensures Follows(connection.answers, old(connection.Now()), connection.Now())
      ensures UpDuring(connection.answers, old(connection.clock), connection.clock) ==>
                Views(localExchangedData, SteadyLocal(connection.answers.model, localExchangedData))
    {
      ghost var before := localExchangedData;
      ghost var nodes := BuildLocalTrees();
      forall i | 0 <= i < |before|
        ensures EntryOf(localExchangedData[i]) == EntryOf(before[i])
        ensures localExchangedData[i].mmsNameTree.mmsName == localExchangedData[i].dpLabel
      {
        assert ViewOf(localExchangedData[i]) == LocalEntry(EntryOf(before[i]), nodes[i]);
      }
    }

    /** The datasets, after a build: those of the selection are rebuilt, and their labels are their roots. */
    method BuildSelectedDatasets() returns (ghost views: map<string, seq<Entry>>)
      requires connection != null && SizesFit(connection.answers.model)
      modifies this`localExchangedDatasets, connection
      ensures views.Keys == config.selectedDOInExchangedDatasets.Keys
      ensures localExchangedDatasets.Keys == old(localExchangedDatasets.Keys) + views.Keys
      ensures forall ref :: ref in localExchangedDatasets && ref !in views ==>
                localExchangedDatasets[ref] == old(localExchangedDatasets)[ref]
      ensures ViewsAll(localExchangedDatasets, views) && LabelsAreRootsAll(views)
      ensures connection.clock >= old(connection.clock)
      ensures Follows(connection.answers, old(connection.Now()), connection.Now())
      ensures UpDuring(connection.answers, old(connection.clock), connection.clock) ==>
                views == SteadyViews(connection.answers.model, config.selectedDOInExchangedDatasets, fcOf)
    {
      hide SteadyDataset, ViewsAll, LabelsAreRootsAll;
      ghost var made;
      made, views := BuildDatasets();
      MergeKeepsViews(old(localExchangedDatasets), made, views);
      if UpDuring(connection.answers, old(connection.clock), connection.clock) {
        SteadyAllViews(views, connection.answers.model, config.selectedDOInExchangedDatasets, fcOf);
      }
    }

    /** Builds the name trees of the local data and of every dataset of the selection. */
    method BuildConfigurationNameTrees() returns (ghost views: map<string, seq<Entry>>)
      requires connection != null && SizesFit(connection.answers.model)
      modifies this`localExchangedData, this`localExchangedDatasets, connection
      ensures SameButTrees(localExchangedData, old(localExchangedData)) && RootsNamed(localExchangedData)
      ensures views.Keys == config.selectedDOInExchangedDatasets.Keys
      ensures localExchangedDatasets.Keys == old(localExchangedDatasets.Keys) + views.Keys
      ensures forall ref :: ref in localExchangedDatasets && ref !in views ==>
                localExchangedDatasets[ref] == old(localExchangedDatasets)[ref]
      ensures ViewsAll(localExchangedDatasets, views) && LabelsAreRootsAll(views)
      ensures connection.clock >= old(connection.clock)
      ensures Follows(connection.answers, old(connection.Now()), connection.Now())
      ensures UpDuring(connection.answers, old(connection.clock), connection.clock) ==> Settled(connection.answers.model)
    {
      hide SteadyDataset, SteadyLocal, LabelsAreRootsAll, Follows;
      BuildLocalData();
      ghost var built := connection.Now();
      views := BuildSelectedDatasets();
      FollowInTurn(connection.answers, old(connection.Now()), built, connection.Now());
    }

    /** What every build and every poll keep: there are no datasets but the selected ones, and every name tree that
        there is carries its label at the root. */
    ghost predicate Consistent()
      reads this`localExchangedData, this`localExchangedDatasets, config`selectedDOInExchangedDatasets
      reads NodesOf(localExchangedData), NodesOfAll(localExchangedDatasets, localExchangedDatasets.Keys)
    {
      && localExchangedDatasets.Keys <= config.selectedDOInExchangedDatasets.Keys
      && RootsAgree(localExchangedData) && RootsAgreeAll(localExchangedDatasets)
    }

    /** The client holds exactly what the model, its copies of the configuration and the selection determine. */
    ghost predicate Settled(model: DataModel)
      reads this, config, NodesOf(localExchangedData)
      reads NodesOfAll(localExchangedDatasets, SteadyViews(model, config.selectedDOInExchangedDatasets, fcOf).Keys)
    {
      && Views(localExchangedData, SteadyLocal(model, localExchangedData))
      && ViewsAll(localExchangedDatasets, SteadyViews(model, config.selectedDOInExchangedDatasets, fcOf))
    }

    // -------------------------------------------------------------- connecting

    method DestroyConnection()
      modifies this`connection
      ensures connection == null
    {
      if connection == null {
        return;
      }
      connection := null;
    }

    method CreateConnection(answers: Answers)
      modifies this`connection
      ensures old(connection) != null ==> connection == old(connection)
      ensures old(connection) == null ==>
                && connection != null && fresh(connection) && connection.answers == answers
                && connection.Now() == Standing(1, answers.error(0))
    {
      if connection != null {
        return;
      }
      connection := new IEC61850ClientConnection(answers);
    }

    /** One round of the connection loop, with the answers that the new connection will get. The name trees are
        rebuilt when the link is up right after the connection was opened (call 1), not when it comes up later. */
    method ConnectOnce(answers: Answers)
      requires SizesFit(answers.model) && Consistent()
      modifies this`connection, this`localExchangedData, this`localExchangedDatasets
      ensures connection != null && fresh(connection) && connection.answers == answers && connection.clock > 1
      ensures SameButTrees(localExchangedData, old(localExchangedData))
      ensures Consistent()
      ensures answers.isUp(1) ==> localExchangedDatasets.Keys == config.selectedDOInExchangedDatasets.Keys
      ensures !answers.isUp(1) ==>
                localExchangedData == old(localExchangedData) && localExchangedDatasets == old(localExchangedDatasets)
      ensures UpDuring(answers, 1, connection.clock) ==> Settled(answers.model)
      ensures Follows(answers, Standing(2, answers.error(0)), connection.Now())
    {
      hide Follows, SteadyLocal, SteadyDataset;
      FollowsAtOnce(answers, Standing(2, answers.error(0)));
      DestroyConnection();
      CreateConnection(answers);
      var connected := connection.IsConnected();
      assert connection.Now() == Standing(2, answers.error(0));
      if connected {
        ghost var views := BuildConfigurationNameTrees();
        AgreementInAllViews(localExchangedDatasets, views);
        assert UpDuring(answers, 1, connection.clock) ==> UpDuring(answers, 2, connection.clock);
      } else {
        assert !answers.isUp(1);
      }
    }

    /** One round and the test of the loop: go on while the link is down and no stop order is seen. */
    method ConnectRound(answers: Answers, stopSeen: bool) returns (again: bool)
      requires SizesFit(answers.model) && Consistent()
      modifies this`connection, this`localExchangedData, this`localExchangedDatasets
      ensures connection != null && fresh(connection) && connection.answers == answers && connection.clock > 1
      ensures SameButTrees(localExchangedData, old(localExchangedData))
      ensures Consistent()
      ensures answers.isUp(1) ==> localExchangedDatasets.Keys == config.selectedDOInExchangedDatasets.Keys
      ensures UpDuring(answers, 1, connection.clock) ==> Settled(answers.model)
      ensures stopSeen ==> !again
      ensures !stopSeen ==> connection.clock > 2 && again == !answers.isUp(connection.clock - 1)
      ensures RecordsOpening(connection, if stopSeen then 0 else 1)
    {
      hide SteadyLocal, SteadyDataset, Follows;
      ConnectOnce(answers);
      again := !stopSeen;
      if again {
        ghost var clock := connection.clock;
        var connected := connection.IsConnected();
        again := !connected;
        assert UpDuring(answers, 1, connection.clock) ==> UpDuring(answers, 1, clock);
      }
    }

    /** The connection loop, for connections that get these answers in turn. `stopSeen(n)` tells whether the stop
        order is seen after round `n`; after the last connection of the list it is. `tests` are the calls at which the
        rounds before the last found the link down. */
    method InitializeConnection(attempts: seq<Answers>, stopSeen: nat -> bool)
      returns (rounds: nat, ghost tests: seq<nat>)
      requires attempts != [] && forall i :: 0 <= i < |attempts| ==> SizesFit(attempts[i].model)
      requires Consistent()
      modifies this`connection, this`localExchangedData, this`localExchangedDatasets
      ensures 1 <= rounds <= |attempts| && forall n :: 1 <= n < rounds ==> !stopSeen(n)
      ensures |tests| == rounds - 1 && FoundDown(attempts, tests)
      ensures connection != null && fresh(connection) && connection.answers == attempts[rounds - 1]
      ensures SameButTrees(localExchangedData, old(localExchangedData))
      ensures Consistent()
      ensures connection.answers.isUp(1) ==> localExchangedDatasets.Keys == config.selectedDOInExchangedDatasets.Keys
      ensures UpDuring(connection.answers, 1, connection.clock) ==>
                && Settled(connection.answers.model)
                && Views(localExchangedData, SteadyLocal(connection.answers.model, old(localExchangedData)))
      ensures rounds < |attempts| && !stopSeen(rounds) ==>
                connection.clock > 1 && connection.answers.isUp(connection.clock - 1)
      ensures RecordsOpening(connection, if rounds == |attempts| || stopSeen(rounds) then 0 else 1)
    {
      hide SteadyLocal, SteadyDataset, FoundDown, RecordsOpening;
      OneMoreFoundDown(attempts, [], 0);
      ghost var before := localExchangedData;
      rounds := 1;
      var again := ConnectRound(attempts[0], |attempts| == 1 || stopSeen(1));
      tests := [];
      while again
        invariant 1 <= rounds <= |attempts| && (again ==> rounds < |attempts| && !stopSeen(rounds))
        invariant forall n :: 1 <= n < rounds ==> !stopSeen(n)
        invariant SameButTrees(localExchangedData, before)
        invariant Consistent()
        invariant connection != null && fresh(connection) && connection.answers == attempts[rounds - 1]
        invariant connection.clock > 1
        invariant |tests| == rounds - 1 && FoundDown(attempts, tests)
        invariant again ==> connection.clock > 2 && !attempts[rounds - 1].isUp(connection.clock - 1)
        invariant connection.answers.isUp(1) ==> localExchangedDatasets.Keys == config.selectedDOInExchangedDatasets.Keys
        invariant UpDuring(connection.answers, 1, connection.clock) ==> Settled(connection.answers.model)
        invariant !again && rounds < |attempts| && !stopSeen(rounds) ==>
                    connection.clock > 1 && connection.answers.isUp(connection.clock - 1)
        invariant RecordsOpening(connection, if rounds == |attempts| || stopSeen(rounds) then 0 else 1)
        decreases |attempts| - rounds
      {
        OneMoreFoundDown(attempts, tests, connection.clock - 1);
        tests := tests + [connection.clock - 1];
        rounds := rounds + 1;
        again := ConnectRound(attempts[rounds - 1], rounds == |attempts| || stopSeen(rounds));
      }
      SteadyLocalIgnoresTrees(connection.answers.model, localExchangedData, before);
    }

    /** Reconnecting is idempotent: a client that a full build has left with these entries and datasets has the same
        ones after another full build from the same model. */
    method Reconnect(attempts: seq<Answers>, stopSeen: nat -> bool, ghost model: DataModel, ghost entries: seq<Entry>,
                     ghost views: map<string, seq<Entry>>)
      requires attempts != [] && forall i :: 0 <= i < |attempts| ==> SizesFit(attempts[i].model)
      requires Consistent() && Settled(model) && views.Keys == localExchangedDatasets.Keys
      requires Views(localExchangedData, entries) && ViewsAll(localExchangedDatasets, views)
      modifies this`connection, this`localExchangedData, this`localExchangedDatasets
      ensures connection != null && Consistent()
      ensures connection.answers.model == model && UpDuring(connection.answers, 1, connection.clock) ==>
                && Settled(model) && localExchangedDatasets.Keys == views.Keys == config.selectedDOInExchangedDatasets.Keys
                && Views(localExchangedData, entries) && ViewsAll(localExchangedDatasets, views)
    {
      hide SteadyLocal, SteadyDataset;
      SettledIsDetermined(this, model, entries, views);
      ghost var tests;
      var rounds;
      rounds, tests := InitializeConnection(attempts, stopSeen);
    }

    /** What stop leaves, once the threads are joined. */
    method Stop()
      modifies this`connection
      ensures connection == null
    {
      DestroyConnection();
    }

    // -------------------------------------------------------------- sending

    ghost predicate Receives()
      reads gateway
    {
      gateway != null && gateway.hasCallback
    }

    ghost function Delivered(): seq<Reading>
      reads gateway
    {
      if gateway == null then [] else gateway.delivered
    }

    /** Whoever can take the datapoint does: without a receiver it is deleted, with a callback it is handed over. */
    method SendData(ghost heap: Allocations, datapoint: Datapoint?, ghost t: Option<Tree>)
      requires Represents(datapoint, t)
      modifies heap, gateway
      ensures gateway == null || gateway.hasCallback ==> heap.live == old(heap.live) - Footprint(datapoint)
      ensures gateway != null && !gateway.hasCallback ==> heap.live == old(heap.live)
      ensures gateway != null ==>
                && gateway.hasCallback == old(gateway.hasCallback)
                && gateway.delivered == old(gateway.delivered)
                     + if t.Some? && gateway.hasCallback then [Reading(t.value.name, t.value)] else []
    {
      if gateway == null {
        heap.live := heap.live - Footprint(datapoint);
        return;
      }
      if datapoint == null {
        return;
      }
      gateway.Ingest(heap, datapoint, datapoint.name, t.value);
    }

    /** Converts and sends one value. Nothing stays allocated if it converts and someone can take it. */
    method ExportValue(ghost heap: Allocations, mmsValue: MmsValue, dpConfig: DatapointConfig, ghost e: Entry)
      returns (r: Result<(), MmsError>)
      requires ViewOf(dpConfig) == e && !Exported(e, Some(mmsValue)).Undefined?
      modifies heap, gateway
      ensures Receives() == old(Receives())
      ensures r.Failure? ==> Exported(e, Some(mmsValue)) == Throws(r.error) && Delivered() == old(Delivered())
      ensures r.Success? ==>
                && Exported(e, Some(mmsValue)).Done?
                && Delivered() == old(Delivered()) + if Receives() then Exported(e, Some(mmsValue)).value else []
      ensures r.Success? && (gateway == null || Receives()) ==> heap.live == old(heap.live)
    {
      var tree := None;
      if dpConfig.mmsNameTree != null {
        tree := Some(dpConfig.mmsNameTree.View());
      }
      var datapoint := ConvertMmsToDatapoint(heap, mmsValue, tree, dpConfig.datapointType);
      if datapoint.Failure? {
        return Failure(datapoint.error);
      }
      SendData(heap, datapoint.value, ConvertObject(mmsValue, tree, dpConfig.datapointType).value);
      r := Success(());
    }

    // -------------------------------------------------------------- reading

    /** The values of the first `n` entries were sent, after `before`. */
    ghost predicate Sent(entries: seq<Entry>, values: seq<Option<MmsValue>>, n: nat, before: seq<Reading>)
      reads gateway
    {
      && n <= |entries| == |values| && (forall k :: 0 <= k < n ==> Exported(entries[k], values[k]).Done?)
      && Delivered() == before + if Receives() then ReadingsOf(entries, values, n) else []
    }

    /** The values were sent as far as their conversions return, after `before`; `r` is how it ended. */
    ghost predicate Polled(poll: Poll, before: seq<Reading>, r: Result<(), MmsError>)
      reads gateway
    {
      && poll.end == (if r.Failure? then Throws(r.error) else Done(()))
      && Delivered() == before + if Receives() then poll.sent else []
    }

    /** Sends the value of the next entry, unless the entry is skipped. */
    method ExportNext(ghost heap: Allocations, value: Option<MmsValue>, dpConfig: DatapointConfig,
                      ghost entries: seq<Entry>, ghost values: seq<Option<MmsValue>>, ghost n: nat,
                      ghost before: seq<Reading>)
      returns (r: Result<(), MmsError>)
      requires Sent(entries, values, n, before) && !PollOf(entries, values).end.Undefined?
      requires n < |entries| && ViewOf(dpConfig) == entries[n] && value == values[n]
      modifies heap, gateway
      ensures Receives() == old(Receives()) && (r.Success? <==> Exported(entries[n], value).Done?)
      ensures if r.Failure? then Polled(PollOf(entries, values), before, r) else Sent(entries, values, n + 1, before)
      ensures r.Success? && (gateway == null || Receives()) ==> heap.live == old(heap.live)
    {
      hide ConvertObject;
      if !Exported(entries[n], value).Done? {
        StopsAtFirst(entries, values, n);
      }
      r := Success(());
      if value.Some? {
        r := ExportValue(heap, value.value, dpConfig, entries[n]);
      }
    }

    lemma NoneSent(entries: seq<Entry>, values: seq<Option<MmsValue>>)
      requires |entries| == |values|
      ensures Sent(entries, values, 0, Delivered())
    {
    }

    lemma AllSent(entries: seq<Entry>, values: seq<Option<MmsValue>>, before: seq<Reading>)
      requires Sent(entries, values, |entries|, before)
      ensures Polled(PollOf(entries, values), before, Success(()))
    {
    }

    /** Splits the value of a dataset: one reading per selected member. */
    method SplitDataset(ghost heap: Allocations, elems: seq<MmsValue>, exchangedDataset: seq<DatapointConfig>,
                        ghost entries: seq<Entry>)
      returns (r: Result<(), MmsError>)
      requires Views(exchangedDataset, entries) && |elems| == |exchangedDataset|
      requires !PollOf(entries, DatasetValues(entries, elems)).end.Undefined?
      modifies heap, gateway
      ensures Receives() == old(Receives())
      ensures Polled(PollOf(entries, DatasetValues(entries, elems)), old(Delivered()), r)
      ensures r.Success? && (gateway == null || Receives()) ==> heap.live == old(heap.live)
    {
      hide PollOf, Exported, ReadingsOf;
      ghost var values, before := DatasetValues(entries, elems), Delivered();
      NoneSent(entries, values);
      var datasetIndex := 0;
      while datasetIndex < |exchangedDataset|
        invariant 0 <= datasetIndex <= |exchangedDataset|
        invariant Sent(entries, values, datasetIndex, before) && Receives() == old(Receives())
        invariant gateway == null || Receives() ==> heap.live == old(heap.live)
      {
        var dpConfig := exchangedDataset[datasetIndex];
        assert ViewOf(dpConfig) == entries[datasetIndex];
        var value := None;
        if dpConfig.dpLabel != "" {
          value := Some(elems[datasetIndex]);
        }
        r := ExportNext(heap, value, dpConfig, entries, values, datasetIndex, before);
        if r.Failure? {
          return;
        }
        datasetIndex := datasetIndex + 1;
      }
      AllSent(entries, values, before);
      r := Success(());
    }

    /** Reads one dataset and sends one reading per selected member. The object that the read returns is used without
        a test. */
    method ReadAndExportOneDataset(ghost heap: Allocations, datasetRef: string, exchangedDataset: seq<DatapointConfig>,
                                   ghost entries: seq<Entry>)
      returns (r: Result<(), MmsError>)
      requires connection != null && Views(exchangedDataset, entries)
      requires !DatasetRead(connection.answers, entries, datasetRef, connection.clock).end.Undefined?
      modifies heap, gateway, connection
      ensures connection.Now() == AfterRead(connection.answers, old(connection.Now()))
      ensures connection.clock == old(connection.clock) + 2 && Receives() == old(Receives())
      ensures var value := connection.answers.readDataset(old(connection.clock) + 1, datasetRef);
              && Polled(DatasetPoll(entries, value), old(Delivered()), r)
              && DatasetPoll(entries, value) == DatasetRead(connection.answers, entries, datasetRef, old(connection.clock))
      ensures r.Success? && (gateway == null || Receives()) ==> heap.live == old(heap.live)
    {
      hide PollOf;
      var wrappedMms := connection.ReadDataset(datasetRef);
      var datasetMmsValue := wrappedMms.value;
      if !(datasetMmsValue.Composite? && datasetMmsValue.kind.Array?)
         || |datasetMmsValue.elems| != |exchangedDataset| {
        return Failure(StructureMismatch);
      }
      r := SplitDataset(heap, datasetMmsValue.elems, exchangedDataset, entries);
    }

    /** Reads the next data object and sends what it converts to; it is skipped if the link does not answer. */
    method ReadAndExportNextDO(ghost heap: Allocations, i: nat, ghost entries: seq<Entry>,
                               ghost values: seq<Option<MmsValue>>, ghost before: seq<Reading>)
      returns (r: Result<(), MmsError>)
      requires connection != null && Views(localExchangedData, entries) && i < |localExchangedData|
      requires Sent(entries, values, i, before) && !PollOf(entries, values).end.Undefined?
      requires ObjectValues(connection.answers, entries[i..], connection.clock) == values[i..]
      modifies heap, gateway, connection
      ensures Receives() == old(Receives())
      ensures if r.Failure? then Polled(PollOf(entries, values), before, r)
              else && Sent(entries, values, i + 1, before)
                   && ObjectValues(connection.answers, entries[i + 1..], connection.clock) == values[i + 1..]
      ensures old(AfterObjects(connection.answers, entries[i..], connection.Now()))
                == if r.Failure? then connection.Now()
                   else AfterObjects(connection.answers, entries[i + 1..], connection.Now())
      ensures r.Success? && (gateway == null || Receives()) ==> heap.live == old(heap.live)
    {
      hide ObjectValues, Exported, PollOf, ReadingsOf;
      var dpConfig := localExchangedData[i];
      assert ViewOf(dpConfig) == entries[i];
      NextObject(connection.answers, entries, values, i, connection.clock);
      var wrappedMms := connection.ReadDO(dpConfig.dataPath, dpConfig.fc);
      r := ExportNext(heap, wrappedMms, dpConfig, entries, values, i, before);
      assert entries[i..][1..] == entries[i + 1..];
    }

    /** Reads every data object of the configuration and sends what it converts to. */
    method ReadAndExportAllDO(ghost heap: Allocations, ghost entries: seq<Entry>) returns (r: Result<(), MmsError>)
      requires connection != null && Views(localExchangedData, entries)
      requires !PollOf(entries, ObjectValues(connection.answers, entries, connection.clock)).end.Undefined?
      modifies heap, gateway, connection
      ensures Receives() == old(Receives())
      ensures Polled(PollOf(entries, ObjectValues(connection.answers, entries, old(connection.clock))), old(Delivered()), r)
      ensures connection.Now() == AfterObjects(connection.answers, entries, old(connection.Now()))
      ensures r.Success? && (gateway == null || Receives()) ==> heap.live == old(heap.live)
    {
      hide Exported, PollOf, ReadingsOf;
      ghost var end := AfterObjects(connection.answers, entries, connection.Now());
      ghost var values, before := ObjectValues(connection.answers, entries, connection.clock), Delivered();
      NoneSent(entries, values);
      assert entries[0..] == entries && values[0..] == values;
      var i := 0;
      while i < |localExchangedData|
        invariant 0 <= i <= |localExchangedData|
        invariant ObjectValues(connection.answers, entries[i..], connection.clock) == values[i..]
        invariant AfterObjects(connection.answers, entries[i..], connection.Now()) == end
        invariant Sent(entries, values, i, before) && Receives() == old(Receives())
        invariant gateway == null || Receives() ==> heap.live == old(heap.live)
      {
        r := ReadAndExportNextDO(heap, i, entries, values, before);
        if r.Failure? {
          return;
        }
        i := i + 1;
      }
      AllSent(entries, values, before);
      r := Success(());
    }

    /** After `before`, `sent` was sent, and the whole poll goes on with the datasets from `i` on. */
    ghost predicate DatasetsSent(views: map<string, seq<Entry>>, order: seq<string>, i: nat, whole: Poll,
                                 before: seq<Reading>, sent: seq<Reading>)
      requires connection != null
      reads this`connection, connection, gateway
    {
      && i <= |order| && (forall k :: 0 <= k < |order| ==> order[k] in views)
      && Continues(whole, sent, DatasetsPoll(connection.answers, views, order[i..], connection.clock))
      && Delivered() == before + if Receives() then sent else []
    }

    method ReadAndExportNextDataset(ghost heap: Allocations, order: seq<string>, i: nat, ghost views: map<string, seq<Entry>>,
                                    ghost whole: Poll, ghost before: seq<Reading>, ghost sent: seq<Reading>)
      returns (r: Result<(), MmsError>, ghost sentNow: seq<Reading>)
      requires connection != null && ViewsAll(localExchangedDatasets, views) && i < |order|
      requires DatasetsSent(views, order, i, whole, before, sent)
      requires !whole.end.Undefined?
      modifies heap, gateway, connection
      ensures Receives() == old(Receives())
      ensures if r.Success? then DatasetsSent(views, order, i + 1, whole, before, sentNow) else Polled(whole, before, r)
      ensures old(AfterDatasets(connection.answers, views, order[i..], connection.Now()))
                == if r.Failure? then connection.Now()
                   else AfterDatasets(connection.answers, views, order[i + 1..], connection.Now())
      ensures r.Success? && (gateway == null || Receives()) ==> heap.live == old(heap.live)
    {
      hide DatasetsPoll, DatasetRead, Exported;
      ghost var next := DatasetRead(connection.answers, views[order[i]], order[i], connection.clock);
      NextDataset(connection.answers, views, order, i, connection.clock, whole, sent);
      r := ReadAndExportOneDataset(heap, order[i], localExchangedDatasets[order[i]], views[order[i]]);
      sentNow := sent + next.sent;
      AppendAssociates(before, sent, next.sent);
      assert order[i..][1..] == order[i + 1..];
    }

    /** Reads every dataset, in the order in which the map holds them. */
    method ReadAndExportAllDatasets(ghost heap: Allocations, order: seq<string>, ghost views: map<string, seq<Entry>>)
      returns (r: Result<(), MmsError>)
      requires connection != null && ViewsAll(localExchangedDatasets, views)
      requires forall i :: 0 <= i < |order| ==> order[i] in views
      requires !DatasetsPoll(connection.answers, views, order, connection.clock).end.Undefined?
      modifies heap, gateway, connection
      ensures Receives() == old(Receives())
      ensures Polled(DatasetsPoll(connection.answers, views, order, old(connection.clock)), old(Delivered()), r)
      ensures connection.Now() == AfterDatasets(connection.answers, views, order, old(connection.Now()))
      ensures r.Success? && (gateway == null || Receives()) ==> heap.live == old(heap.live)
    {
      hide DatasetsPoll, DatasetRead, Exported;
      ghost var end := AfterDatasets(connection.answers, views, order, connection.Now());
      ghost var whole, before := DatasetsPoll(connection.answers, views, order, connection.clock), Delivered();
      ghost var sent := [];
      assert order[0..] == order && [] + whole.sent == whole.sent;
      var i := 0;
      while i < |order|
        invariant 0 <= i <= |order| && ViewsAll(localExchangedDatasets, views) && Receives() == old(Receives())
        invariant DatasetsSent(views, order, i, whole, before, sent)
        invariant AfterDatasets(connection.answers, views, order[i..], connection.Now()) == end
        invariant gateway == null || Receives() ==> heap.live == old(heap.live)
      {
        r, sent := ReadAndExportNextDataset(heap, order, i, views, whole, before, sent);
        if r.Failure? {
          return;
        }
        i := i + 1;
      }
      LastDataset(connection.answers, views, order, connection.clock, whole, sent);
      r := Success(());
    }

    /** Reads in the mode of the configuration. */
    method ReadAndExportByMode(ghost heap: Allocations, order: seq<string>, ghost entries: seq<Entry>,
                               ghost views: map<string, seq<Entry>>)
      returns (r: Result<(), MmsError>)
      requires connection != null && Views(localExchangedData, entries) && ViewsAll(localExchangedDatasets, views)
      requires Lists(order, localExchangedDatasets.Keys) && views.Keys == localExchangedDatasets.Keys
      requires !ModePoll(config.applicationParams.readMode, connection.answers, entries, views, order,
                         connection.clock).end.Undefined?
      modifies heap, gateway, connection
      ensures Receives() == old(Receives())
      ensures config.applicationParams.readMode.DATASET_READING? ==>
                && Polled(DatasetsPoll(connection.answers, views, order, old(connection.clock)), old(Delivered()), r)
                && connection.Now() == AfterDatasets(connection.answers, views, order, old(connection.Now()))
      ensures config.applicationParams.readMode.DO_READING? ==>
                && Polled(PollOf(entries, ObjectValues(connection.answers, entries, old(connection.clock))),
                          old(Delivered()), r)
                && connection.Now() == AfterObjects(connection.answers, entries, old(connection.Now()))
      ensures r.Success? && (gateway == null || Receives()) ==> heap.live == old(heap.live)
    {
      hide DatasetsPoll, PollOf, ObjectValues, Exported, DatasetPoll, AfterObjects, AfterDatasets;
      match config.applicationParams.readMode
      case DATASET_READING =>
        r := ReadAndExportAllDatasets(heap, order, views);
      case DO_READING =>
        r := ReadAndExportAllDO(heap, entries);
    }

    /** One poll. A link that is down is connected again, and nothing is read; a recorded error stops the poll
        before it reads anything, and stays recorded; otherwise the poll of the configured mode is sent, each reading
        under the name that its entry asks for. */
    method ReadAndExportMms(ghost heap: Allocations, order: seq<string>, ghost entries: seq<Entry>,
                            ghost views: map<string, seq<Entry>>, attempts: seq<Answers>, stopSeen: nat -> bool)
      returns (r: Result<(), MmsError>, ghost rounds: nat)
      requires connection != null && Consistent()
      requires Views(localExchangedData, entries) && ViewsAll(localExchangedDatasets, views)
      requires Lists(order, localExchangedDatasets.Keys) && views.Keys == localExchangedDatasets.Keys
      requires attempts != [] && forall i :: 0 <= i < |attempts| ==> SizesFit(attempts[i].model)
      requires connection.answers.isUp(connection.clock) && connection.networkStackError == IED_ERROR_OK ==>
                 !ModePollIsBad(config.applicationParams.readMode, connection.answers, entries, views, order,
                                connection.clock + 1)
      modifies this`connection, this`localExchangedData, this`localExchangedDatasets, heap, gateway, connection
      ensures connection != null && Consistent()
      ensures gateway != null ==> gateway.hasCallback == old(gateway.hasCallback)
      ensures old(!connection.answers.isUp(connection.clock) || connection.networkStackError != IED_ERROR_OK)
              && gateway != null ==>
                gateway.delivered == old(gateway.delivered)
      ensures old(!connection.answers.isUp(connection.clock)) ==>
                && fresh(connection) && r.Success? && heap.live == old(heap.live)
                && 1 <= rounds <= |attempts| && connection.answers == attempts[rounds - 1]
                && SameButTrees(localExchangedData, old(localExchangedData))
                && (connection.answers.isUp(1) ==>
                      localExchangedDatasets.Keys == config.selectedDOInExchangedDatasets.Keys)
                && (UpDuring(connection.answers, 1, connection.clock) ==> Settled(connection.answers.model))
                && RecordsOpening(connection, if rounds == |attempts| || stopSeen(rounds) then 0 else 1)
      ensures old(connection.answers.isUp(connection.clock)) ==>
                && connection == old(connection)
                && localExchangedData == old(localExchangedData) && localExchangedDatasets == old(localExchangedDatasets)
      ensures old(connection.answers.isUp(connection.clock) && connection.networkStackError != IED_ERROR_OK) ==>
                && r.Success? && heap.live == old(heap.live)
                && connection.Now() == old(connection.Now()).(clock := old(connection.clock) + 1)
      ensures old(connection.answers.isUp(connection.clock) && connection.networkStackError == IED_ERROR_OK) ==>
                var mode, clock := config.applicationParams.readMode, old(connection.clock) + 1;
                var poll := ModePoll(mode, connection.answers, entries, views, order, clock);
                && poll.end == (if r.Failure? then Throws(r.error) else Done(()))
                && (gateway != null ==>
                      gateway.delivered == old(gateway.delivered) + if gateway.hasCallback then poll.sent else [])
                && ModeNamed(mode, connection.answers, entries, views, order, clock)
                && connection.Now() == AfterModePoll(mode, connection.answers, entries, views, order,
                                                     old(connection.Now()).(clock := clock))
      ensures r.Success? && (gateway == null || gateway.hasCallback) ==> heap.live == old(heap.live)
    {
      hide DatasetsPoll, PollOf, ObjectValues, ModePollIsBad, ModeNamed, AfterObjects, AfterDatasets, RecordsOpening;
      hide SteadyLocal, SteadyDataset;
      var connected := connection.IsConnected();
      if !connected {
        ghost var tests;
        var made;
        made, tests := InitializeConnection(attempts, stopSeen);
        return Success(()), made;
      }
      rounds := 0;
      if !connection.IsNoError() {
        return Success(()), 0;
      }
      ModePollUndefinedExactly(config.applicationParams.readMode, connection.answers, entries, views, order,
                               connection.clock);
      AgreementInViews(localExchangedData, entries);
      AgreementInAllViews(localExchangedDatasets, views);
      ModePollNames(config.applicationParams.readMode, connection.answers, entries, views, order, connection.clock);
      r := ReadAndExportByMode(heap, order, entries, views);
    }
  }

  lemma ViewsDetermine(cs: seq<DatapointConfig>, a: seq<Entry>, b: seq<Entry>)
    requires Views(cs, a) && Views(cs, b)
    ensures a == b
  {
  }

  /** The entries that a settled client holds are a function of the server's model and of the configuration; so
      another full build, which leaves the client settled, leaves it with the same entries. */
  lemma SettledIsDetermined(c: IEC61850Client, model: DataModel, entries: seq<Entry>, views: map<string, seq<Entry>>)
    requires c.Settled(model) && views.Keys == c.config.selectedDOInExchangedDatasets.Keys
    requires Views(c.localExchangedData, entries) && ViewsAll(c.localExchangedDatasets, views)
    ensures entries == SteadyLocal(model, c.localExchangedData)
    ensures views == SteadyViews(model, c.config.selectedDOInExchangedDatasets, c.fcOf)
  {
    ViewsDetermine(c.localExchangedData, entries, SteadyLocal(model, c.localExchangedData));
    var steady := SteadyViews(model, c.config.selectedDOInExchangedDatasets, c.fcOf);
    forall ref | ref in views
      ensures views[ref] == steady[ref]
    {
      ViewsDetermine(c.localExchangedDatasets[ref], views[ref], steady[ref]);
    }
  }
}
