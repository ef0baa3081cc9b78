/** The connection with one server: what the server answers, and the walk of its directory. */
module Connection {
  import opened Outcomes
  import opened Mms

  datatype FunctionalConstraint = FunctionalConstraint(code: int)

  const IED_ERROR_OK := 0

  /** The data model of a server: the directory of each path for each functional constraint, and the members
      of each dataset. A path or a dataset without an entry gets a null answer. */
  datatype DataModel = DataModel(
    directory: map<(string, FunctionalConstraint), seq<string>>,
    datasets: map<string, seq<string>>)

  /** What a server answers over the life of one connection. Calls are numbered: the state of the link, the
      error code and the values read depend on the number of the call; the data model does not. A directory call that
      finds the link down gets a null answer; what a read over it gets is one more value that it may get. */
  datatype Answers = Answers(
    model: DataModel,
    isUp: nat -> bool,
    error: nat -> int,
    readObject: (nat, string, FunctionalConstraint) -> MmsValue,
    readDataset: (nat, string) -> MmsValue)

  /** How a connection stands: the number of its next call, and the error code that is recorded. */
  datatype Standing = Standing(clock: nat, error: int)

  /** The link is up at every call from number `from` to number `to`. */
  ghost predicate UpDuring(answers: Answers, from: nat, to: nat) {
    forall t: nat :: from <= t < to ==> answers.isUp(t)
  }

  // ---------------------------------------------------------------- the names below a path

  /** The entries at least as long as `path`. */
  ghost function EntriesFrom(model: DataModel, path: string): set<(string, FunctionalConstraint)> {
    set entry | entry in model.directory && |entry.0| >= |path|
  }

  lemma FewerEntries(model: DataModel, path: string, fc: FunctionalConstraint, name: string)
    requires (path, fc) in model.directory
    ensures EntriesFrom(model, path + "." + name) < EntriesFrom(model, path)
  {
    assert (path, fc) in EntriesFrom(model, path);
    assert (path, fc) !in EntriesFrom(model, path + "." + name);
  }

  /** The name trees below a path of the model. They are finite for every finite directory, even a cyclic
      one, because every level makes the path longer. */
  function Names(model: DataModel, path: string, fc: FunctionalConstraint): seq<NameTree>
    decreases EntriesFrom(model, path), 1, 0
  {
    if (path, fc) !in model.directory then []
    else NamesEach(model, path, fc, model.directory[(path, fc)])
  }

  function NamesEach(model: DataModel, path: string, fc: FunctionalConstraint, names: seq<string>): seq<NameTree>
    requires (path, fc) in model.directory
    decreases EntriesFrom(model, path), 0, |names|
  {
    if names == [] then []
    else
      FewerEntries(model, path, fc, names[0]);
      [NameTree(names[0], Names(model, path + "." + names[0], fc))] + NamesEach(model, path, fc, names[1..])
  }

  // ---------------------------------------------------------------- the walk over a link that may drop

  /** The state after a part of a walk: the nodes it made, the next call number, the recorded error. */
  datatype Visit = Visit(nodes: seq<NameTree>, clock: nat, error: int)

  /** The children that the walk of the directory at `path` makes. */
  function Walk(answers: Answers, path: string, fc: FunctionalConstraint, clock: nat, error: int): (v: Visit)
    ensures v.clock > clock
    decreases EntriesFrom(answers.model, path), 1, 0
  {
    if !answers.isUp(clock) then Visit([], clock + 1, error)
    else if !answers.isUp(clock + 1) || (path, fc) !in answers.model.directory then
      Visit([], clock + 2, answers.error(clock + 1))
    else WalkEach(answers, path, fc, answers.model.directory[(path, fc)], clock + 2, answers.error(clock + 1))
  }

  function WalkEach(answers: Answers, path: string, fc: FunctionalConstraint, names: seq<string>,
                    clock: nat, error: int): (v: Visit)
    requires (path, fc) in answers.model.directory
    ensures v.clock >= clock
    decreases EntriesFrom(answers.model, path), 0, |names|
  {
    if names == [] then Visit([], clock, error)
    else
      FewerEntries(answers.model, path, fc, names[0]);
      var child := Walk(answers, path + "." + names[0], fc, clock, error);
      var others := WalkEach(answers, path, fc, names[1..], child.clock, child.error);
      others.(nodes := [NameTree(names[0], child.nodes)] + others.nodes)
  }

  lemma {:induction false} WalkEachSplit(answers: Answers, path: string, fc: FunctionalConstraint,
                                         first: seq<string>, names: seq<string>, clock: nat, error: int)
    requires (path, fc) in answers.model.directory
    ensures var v := WalkEach(answers, path, fc, first, clock, error);
            var w := WalkEach(answers, path, fc, names, v.clock, v.error);
            WalkEach(answers, path, fc, first + names, clock, error) == w.(nodes := v.nodes + w.nodes)
  {
    if first == [] {
      assert first + names == names;
      var w := WalkEach(answers, path, fc, names, clock, error);
      assert [] + w.nodes == w.nodes;
    } else {
      var child := Walk(answers, path + "." + first[0], fc, clock, error);
      assert (first + names)[1..] == first[1..] + names;
      WalkEachSplit(answers, path, fc, first[1..], names, child.clock, child.error);
      var v := WalkEach(answers, path, fc, first[1..], child.clock, child.error);
      var w := WalkEach(answers, path, fc, names, v.clock, v.error);
      var node := NameTree(first[0], child.nodes);
      assert [node] + (v.nodes + w.nodes) == ([node] + v.nodes) + w.nodes;
    }
  }

  /** Over a link that stays up, the walk finds the names of the model. */
  lemma {:induction false} WalkFindsNames(answers: Answers, path: string, fc: FunctionalConstraint,
                                          clock: nat, error: int)
    requires UpDuring(answers, clock, Walk(answers, path, fc, clock, error).clock)
    ensures Walk(answers, path, fc, clock, error).nodes == Names(answers.model, path, fc)
    decreases EntriesFrom(answers.model, path), 1, 0
  {
    assert answers.isUp(clock) && answers.isUp(clock + 1);
    if (path, fc) in answers.model.directory {
      WalkFindsEach(answers, path, fc, answers.model.directory[(path, fc)], clock + 2, answers.error(clock + 1));
    }
  }

  lemma {:induction false} WalkFindsEach(answers: Answers, path: string, fc: FunctionalConstraint,
                                         names: seq<string>, clock: nat, error: int)
    requires (path, fc) in answers.model.directory
    requires UpDuring(answers, clock, WalkEach(answers, path, fc, names, clock, error).clock)
    ensures WalkEach(answers, path, fc, names, clock, error).nodes == NamesEach(answers.model, path, fc, names)
    decreases EntriesFrom(answers.model, path), 0, |names|
  {
    if names != [] {
      FewerEntries(answers.model, path, fc, names[0]);
      var child := Walk(answers, path + "." + names[0], fc, clock, error);
      WalkFindsNames(answers, path + "." + names[0], fc, clock, error);
      WalkFindsEach(answers, path, fc, names[1..], child.clock, child.error);
    }
  }

  /** A part of `full`: the same nodes, some of them without the nodes below. */
  predicate Prunes(part: seq<NameTree>, full: seq<NameTree>) {
    part == [] ||
    (|part| == |full| && forall i :: 0 <= i < |part| ==>
       part[i].mmsName == full[i].mmsName && Prunes(part[i].children, full[i].children))
  }

  /** Wherever the link drops, the walk only loses whole levels of the names. */
  lemma {:induction false} WalkPrunesNames(answers: Answers, path: string, fc: FunctionalConstraint,
                                           clock: nat, error: int)
    ensures Prunes(Walk(answers, path, fc, clock, error).nodes, Names(answers.model, path, fc))
    decreases EntriesFrom(answers.model, path), 1, 0
  {
    if answers.isUp(clock) && answers.isUp(clock + 1) && (path, fc) in answers.model.directory {
      WalkPrunesEach(answers, path, fc, answers.model.directory[(path, fc)], clock + 2, answers.error(clock + 1));
    }
  }

  lemma {:induction false} WalkPrunesEach(answers: Answers, path: string, fc: FunctionalConstraint,
                                          names: seq<string>, clock: nat, error: int)
    requires (path, fc) in answers.model.directory
    ensures var part := WalkEach(answers, path, fc, names, clock, error).nodes;
            |part| == |NamesEach(answers.model, path, fc, names)| && Prunes(part, NamesEach(answers.model, path, fc, names))
    decreases EntriesFrom(answers.model, path), 0, |names|
  {
    if names != [] {
      FewerEntries(answers.model, path, fc, names[0]);
      var child := Walk(answers, path + "." + names[0], fc, clock, error);
      WalkPrunesNames(answers, path + "." + names[0], fc, clock, error);
      WalkPrunesEach(answers, path, fc, names[1..], child.clock, child.error);
    }
  }

  /** Call `k` is the last between these that is not a test: the test before it found the link up, and every call after
      it is a test that found the link down. */
  ghost predicate LastCall(answers: Answers, from: nat, to: nat, k: nat) {
    from < k < to && answers.isUp(k - 1) && forall t: nat :: k < t < to ==> !answers.isUp(t)
  }

  /** `later` is some calls after `now`. If all of them were tests that found the link down, the recorded error is the
      same; otherwise it is the error code of the last that was not a test. */
  ghost predicate Follows(answers: Answers, now: Standing, later: Standing) {
    && now.clock <= later.clock
    && (|| (later.error == now.error && forall t: nat :: now.clock <= t < later.clock ==> !answers.isUp(t))
        || exists k :: LastCall(answers, now.clock, later.clock, k) && later.error == answers.error(k))
  }

  lemma FollowsAtOnce(answers: Answers, now: Standing)
    ensures Follows(answers, now, now)
  {
  }

  lemma FollowInTurn(answers: Answers, now: Standing, later: Standing, end: Standing)
    requires Follows(answers, now, later) && Follows(answers, later, end)
    ensures Follows(answers, now, end)
  {
    if k :| LastCall(answers, later.clock, end.clock, k) && end.error == answers.error(k) {
      assert LastCall(answers, now.clock, end.clock, k);
    } else if k :| LastCall(answers, now.clock, later.clock, k) && later.error == answers.error(k) {
      assert LastCall(answers, now.clock, end.clock, k);
    }
  }

  /** A read over a link that is up is two calls, the second of which records its error code; one over a link that is
      down is one call, and records nothing. */
  function AfterRead(answers: Answers, now: Standing): Standing {
    if answers.isUp(now.clock) then Standing(now.clock + 2, answers.error(now.clock + 1))
    else now.(clock := now.clock + 1)
  }

  lemma FollowsRead(answers: Answers, now: Standing)
    ensures Follows(answers, now, AfterRead(answers, now))
  {
    if answers.isUp(now.clock) {
      assert LastCall(answers, now.clock, now.clock + 2, now.clock + 1);
    }
  }

  /** A walk leaves the error code of its last directory call recorded, and the earlier code if it makes none. */
  lemma {:induction false} WalkRecordsLastError(answers: Answers, path: string, fc: FunctionalConstraint,
                                                clock: nat, error: int)
    ensures var v := Walk(answers, path, fc, clock, error);
            if answers.isUp(clock) then exists k :: LastCall(answers, clock, v.clock, k) && v.error == answers.error(k)
            else v.clock == clock + 1 && v.error == error
    decreases EntriesFrom(answers.model, path), 1, 0
  {
    if answers.isUp(clock) {
      var v := Walk(answers, path, fc, clock, error);
      if answers.isUp(clock + 1) && (path, fc) in answers.model.directory {
        WalkEachRecordsLastError(answers, path, fc, answers.model.directory[(path, fc)], clock + 2, answers.error(clock + 1));
        if k :| LastCall(answers, clock + 2, v.clock, k) && v.error == answers.error(k) {
          assert LastCall(answers, clock, v.clock, k);
        } else {
          assert LastCall(answers, clock, v.clock, clock + 1);
        }
      } else {
        assert LastCall(answers, clock, v.clock, clock + 1);
      }
    }
  }

  lemma {:induction false} WalkEachRecordsLastError(answers: Answers, path: string, fc: FunctionalConstraint,
                                                    names: seq<string>, clock: nat, error: int)
    requires (path, fc) in answers.model.directory
    ensures var v := WalkEach(answers, path, fc, names, clock, error);
            || (v.error == error && forall t: nat :: clock <= t < v.clock ==> !answers.isUp(t))
            || exists k :: LastCall(answers, clock, v.clock, k) && v.error == answers.error(k)
    decreases EntriesFrom(answers.model, path), 0, |names|
  {
    if names != [] {
      FewerEntries(answers.model, path, fc, names[0]);
      var child := Walk(answers, path + "." + names[0], fc, clock, error);
      var v := WalkEach(answers, path, fc, names, clock, error);
      WalkRecordsLastError(answers, path + "." + names[0], fc, clock, error);
      WalkEachRecordsLastError(answers, path, fc, names[1..], child.clock, child.error);
      if k :| LastCall(answers, child.clock, v.clock, k) && v.error == answers.error(k) {
        assert LastCall(answers, clock, v.clock, k);
      } else if answers.isUp(clock) {
        var k :| LastCall(answers, clock, child.clock, k) && child.error == answers.error(k);
        assert LastCall(answers, clock, v.clock, k);
      }
    }
  }

  lemma FollowsWalk(answers: Answers, path: string, fc: FunctionalConstraint, now: Standing)
    ensures var v := Walk(answers, path, fc, now.clock, now.error);
            Follows(answers, now, Standing(v.clock, v.error))
  {
    WalkRecordsLastError(answers, path, fc, now.clock, now.error);
  }

  // ---------------------------------------------------------------- the name tree and the connection

  /** The node of a name tree that its owner still edits. Its children are constant once they are attached. */
  class MmsNameNode {
    var mmsName: string
    var children: seq<NameTree>

    constructor ()
      ensures mmsName == "" && children == []
    {
      mmsName, children := "", [];
    }

    function View(): NameTree
      reads this
    {
      NameTree(mmsName, children)
    }
  }

  class IEC61850ClientConnection {
    const answers: Answers
    var clock: nat
    var networkStackError: int

    /** Opening the connection is its first call; it records an error code. */
    constructor (answers: Answers)
      ensures this.answers == answers && clock == 1 && networkStackError == answers.error(0)
    {
      this.answers := answers;
      clock, networkStackError := 1, answers.error(0);
    }

    predicate IsNoError()
      reads this
    {
      networkStackError == IED_ERROR_OK
    }

    ghost function Now(): Standing
      reads this
    {
      Standing(clock, networkStackError)
    }

    method IsConnected() returns (up: bool)
      modifies this`clock
      ensures up == answers.isUp(old(clock)) && clock == old(clock) + 1
    {
      up := answers.isUp(clock);
      clock := clock + 1;
    }

    method GetDataDirectory(path: string, fc: FunctionalConstraint) returns (names: Option<seq<string>>)
      modifies this
      ensures clock == old(clock) + 1 && networkStackError == answers.error(old(clock))
      ensures names == if answers.isUp(old(clock)) && (path, fc) in answers.model.directory
                       then Some(answers.model.directory[(path, fc)]) else None
    {
      names := if answers.isUp(clock) && (path, fc) in answers.model.directory
               then Some(answers.model.directory[(path, fc)]) else None;
      networkStackError := answers.error(clock);
      clock := clock + 1;
    }

    /** Appends to `nameTree` the nodes of the directory at `path`, and leaves the rest of it alone. */
    method BuildNameTree(path: string, fc: FunctionalConstraint, nameTree: MmsNameNode?)
      modifies this, nameTree
      ensures nameTree == null ==> clock == old(clock) && networkStackError == old(networkStackError)
      ensures nameTree != null ==>
                var v := Walk(answers, path, fc, old(clock), old(networkStackError));
                && nameTree.mmsName == old(nameTree.mmsName) && nameTree.children == old(nameTree.children) + v.nodes
                && clock == v.clock && networkStackError == v.error
      decreases EntriesFrom(answers.model, path)
    {
      if nameTree == null {
        return;
      }
      var connected := IsConnected();
      if !connected {
        return;
      }
      var dataAttributes := GetDataDirectory(path, fc);
      if dataAttributes.Some? {
        var names := dataAttributes.value;
        ghost var start, error := clock, networkStackError;
        var dataAttribute := 0;
        while dataAttribute < |names|
          invariant 0 <= dataAttribute <= |names|
          invariant nameTree.mmsName == old(nameTree.mmsName)
          invariant var v := WalkEach(answers, path, fc, names[..dataAttribute], start, error);
                    && nameTree.children == old(nameTree.children) + v.nodes
                    && clock == v.clock && networkStackError == v.error
        {
          var daName := names[dataAttribute];
          var newNameNode := new MmsNameNode();
          newNameNode.mmsName := daName;
          FewerEntries(answers.model, path, fc, daName);
          ghost var v := WalkEach(answers, path, fc, names[..dataAttribute], start, error);
          ghost var child := Walk(answers, path + "." + daName, fc, v.clock, v.error);
          BuildNameTree(path + "." + daName, fc, newNameNode);
          assert newNameNode.View() == NameTree(daName, child.nodes);
          nameTree.children := nameTree.children + [newNameNode.View()];
          StepOfWalk(answers, path, fc, names, dataAttribute, start, error);
          assert nameTree.children == old(nameTree.children) + (v.nodes + [NameTree(daName, child.nodes)]);
          dataAttribute := dataAttribute + 1;
        }
        assert names[..dataAttribute] == names;
      }
    }

    /** The members of a dataset, in the order of the server. */
    method GetDoPathListWithFCFromDataset(datasetRef: string) returns (doPathList: seq<string>)
      modifies this
      ensures clock == old(clock) + if answers.isUp(old(clock)) then 2 else 1
      ensures networkStackError == if answers.isUp(old(clock)) then answers.error(old(clock) + 1) else old(networkStackError)
      ensures doPathList == if answers.isUp(old(clock)) && answers.isUp(old(clock) + 1)
                               && datasetRef in answers.model.datasets
                            then answers.model.datasets[datasetRef] else []
    {
      doPathList := [];
      var connected := IsConnected();
      if !connected {
        return;
      }
      var answered := answers.isUp(clock) && datasetRef in answers.model.datasets;
      networkStackError := answers.error(clock);
      clock := clock + 1;
      if answered {
        var members := answers.model.datasets[datasetRef];
        var member := 0;
        while member < |members|
          invariant 0 <= member <= |members| && doPathList == members[..member]
        {
          doPathList := doPathList + [members[member]];
          member := member + 1;
        }
        assert members[..member] == members;
      }
    }

    /** `None` is a null wrapper: the link was down. */
    method ReadDO(doPath: string, fc: FunctionalConstraint) returns (wrapped: Option<MmsValue>)
      modifies this
      ensures clock == old(clock) + if answers.isUp(old(clock)) then 2 else 1
      ensures networkStackError == if answers.isUp(old(clock)) then answers.error(old(clock) + 1) else old(networkStackError)
      ensures wrapped == if answers.isUp(old(clock)) then Some(answers.readObject(old(clock) + 1, doPath, fc)) else None
    {
      var connected := IsConnected();
      if !connected {
        return None;
      }
      wrapped := Some(answers.readObject(clock, doPath, fc));
      networkStackError := answers.error(clock);
      clock := clock + 1;
    }

    method ReadDataset(datasetRef: string) returns (wrapped: Option<MmsValue>)
      modifies this
      ensures clock == old(clock) + if answers.isUp(old(clock)) then 2 else 1
      ensures networkStackError == if answers.isUp(old(clock)) then answers.error(old(clock) + 1) else old(networkStackError)
      ensures wrapped == if answers.isUp(old(clock)) then Some(answers.readDataset(old(clock) + 1, datasetRef)) else None
    {
      var connected := IsConnected();
      if !connected {
        return None;
      }
      wrapped := Some(answers.readDataset(clock, datasetRef));
      networkStackError := answers.error(clock);
      clock := clock + 1;
    }
  }

  /** One round of the loop over a directory extends the walk by one attribute. */
  lemma StepOfWalk(answers: Answers, path: string, fc: FunctionalConstraint, names: seq<string>, i: nat,
                   clock: nat, error: int)
    requires (path, fc) in answers.model.directory && i < |names|
    ensures var v := WalkEach(answers, path, fc, names[..i], clock, error);
            var child := Walk(answers, path + "." + names[i], fc, v.clock, v.error);
            WalkEach(answers, path, fc, names[..i + 1], clock, error)
              == Visit(v.nodes + [NameTree(names[i], child.nodes)], child.clock, child.error)
  {
    var v := WalkEach(answers, path, fc, names[..i], clock, error);
    assert names[..i + 1] == names[..i] + [names[i]];
    WalkEachSplit(answers, path, fc, names[..i], [names[i]], clock, error);
    assert [names[i]][1..] == [];
  }
}
