/** Datapoints on the heap: the conversion of an MMS value as the plugin performs it. */
module Datapoints {
  import opened Outcomes
  import opened Mms

  datatype DatapointValue = Scalar(leaf: Leaf) | Dict(dpVec: seq<Datapoint?>)

  class Datapoint {
    var name: string
    var data: DatapointValue
    /** The objects that this datapoint owns: itself and what its children own. */
    ghost var Repr: set<Datapoint>

    constructor (name: string, data: DatapointValue, ghost below: set<Datapoint>)
      ensures this.name == name && this.data == data && Repr == {this} + below
    {
      this.name, this.data := name, data;
      Repr := {this} + below;
    }
  }

  /** The datapoints allocated and not handed over or deleted yet. */
  class Allocations {
    ghost var live: set<Datapoint>
  }

  ghost function Footprint(d: Datapoint?): set<Datapoint>
    reads d
  {
    if d == null then {} else d.Repr
  }

  /** `d` and the objects it owns form the tree `t`: every object owned is in exactly one place of it. */
  ghost predicate Represents(d: Datapoint?, t: Option<Tree>)
    reads d, Footprint(d)
    decreases t
  {
    match t
    case None => d == null
    case Some(tree) =>
      && d != null && d in d.Repr && d.name == tree.name
      && match tree
         case LeafNode(_, leaf) => d.Repr == {d} && d.data == Scalar(leaf)
         case DictNode(_, children) => d.data.Dict? && RepresentsEach(d.data.dpVec, children, d.Repr - {d})
  }

  /** The datapoints form the trees one by one, own nothing in common, and together own exactly `owned`. */
  ghost predicate RepresentsEach(ds: seq<Datapoint?>, ts: seq<Option<Tree>>, owned: set<Datapoint>)
    reads owned
    decreases ts
  {
    && |ds| == |ts|
    && if ds == [] then owned == {}
       else
         && (ds[0] != null ==> ds[0] in owned)
         && Footprint(ds[0]) <= owned && Represents(ds[0], ts[0])
         && RepresentsEach(ds[1..], ts[1..], owned - Footprint(ds[0]))
  }

  lemma {:induction false} RepresentsOneMore(ds: seq<Datapoint?>, ts: seq<Option<Tree>>, owned: set<Datapoint>,
                                             d: Datapoint?, t: Option<Tree>)
    requires RepresentsEach(ds, ts, owned) && Represents(d, t) && Footprint(d) !! owned
    ensures RepresentsEach(ds + [d], ts + [t], owned + Footprint(d))
  {
    if ds == [] {
      assert owned + Footprint(d) - Footprint(d) == {};
    } else {
      RepresentsOneMore(ds[1..], ts[1..], owned - Footprint(ds[0]), d, t);
      assert (ds + [d])[1..] == ds[1..] + [d] && (ts + [t])[1..] == ts[1..] + [t];
      assert owned + Footprint(d) - Footprint(ds[0]) == owned - Footprint(ds[0]) + Footprint(d);
    }
  }

  // ---------------------------------------------------------------- ownership

  /** The number of objects that a datapoint owns is the number of nodes of its tree. */
  lemma {:induction false} OwnsOneObjectPerNode(d: Datapoint?, t: Option<Tree>)
    requires Represents(d, t)
    ensures |Footprint(d)| == NodeCount(t)
    decreases t
  {
    if t.Some? && t.value.DictNode? {
      OwnsOneObjectPerNodeEach(d.data.dpVec, t.value.children, d.Repr - {d});
      assert d.Repr == {d} + (d.Repr - {d});
    }
  }

  lemma {:induction false} OwnsOneObjectPerNodeEach(ds: seq<Datapoint?>, ts: seq<Option<Tree>>, owned: set<Datapoint>)
    requires RepresentsEach(ds, ts, owned)
    ensures |owned| == NodeCountEach(ts)
    decreases ts
  {
    if ds != [] {
      OwnsOneObjectPerNode(ds[0], ts[0]);
      OwnsOneObjectPerNodeEach(ds[1..], ts[1..], owned - Footprint(ds[0]));
      assert owned == Footprint(ds[0]) + (owned - Footprint(ds[0]));
    }
  }

  lemma {:induction false} EachAt(ds: seq<Datapoint?>, ts: seq<Option<Tree>>, owned: set<Datapoint>, i: nat)
    requires RepresentsEach(ds, ts, owned) && i < |ds|
    ensures ds[i] != null ==> ds[i] in owned
    ensures Footprint(ds[i]) <= owned && Represents(ds[i], ts[i])
    decreases ts
  {
    if i > 0 {
      EachAt(ds[1..], ts[1..], owned - Footprint(ds[0]), i - 1);
    }
  }

  lemma {:induction false} EachDisjoint(ds: seq<Datapoint?>, ts: seq<Option<Tree>>, owned: set<Datapoint>, i: nat, j: nat)
    requires RepresentsEach(ds, ts, owned) && i < j < |ds|
    ensures ds[i] != null ==> ds[i] in owned
    ensures ds[j] != null ==> ds[j] in owned
    ensures Footprint(ds[i]) !! Footprint(ds[j])
    decreases ts
  {
    if i > 0 {
      EachDisjoint(ds[1..], ts[1..], owned - Footprint(ds[0]), i - 1, j - 1);
    } else {
      EachAt(ds[1..], ts[1..], owned - Footprint(ds[0]), j - 1);
    }
  }

  lemma {:induction false} EachCovers(ds: seq<Datapoint?>, ts: seq<Option<Tree>>, owned: set<Datapoint>, o: Datapoint)
    returns (i: nat)
    requires RepresentsEach(ds, ts, owned) && o in owned
    ensures i < |ds| && ds[i] != null && ds[i] in owned && o in ds[i].Repr
    decreases ts
  {
    if o in Footprint(ds[0]) {
      i := 0;
    } else {
      var j := EachCovers(ds[1..], ts[1..], owned - Footprint(ds[0]), o);
      i := j + 1;
    }
  }

  /** The object found from `d` along a path of child indices. */
  ghost function At(d: Datapoint?, t: Option<Tree>, path: seq<nat>): Datapoint?
    requires Represents(d, t)
    reads d, Footprint(d)
    decreases t
  {
    if path == [] || d == null then d
    else if t.value.LeafNode? || path[0] >= |d.data.dpVec| then null
    else
      EachAt(d.data.dpVec, t.value.children, d.Repr - {d}, path[0]);
      At(d.data.dpVec[path[0]], t.value.children[path[0]], path[1..])
  }

  lemma {:induction false} AtIsOwned(d: Datapoint?, t: Option<Tree>, path: seq<nat>)
    requires Represents(d, t)
    ensures At(d, t, path) != null ==> d != null && At(d, t, path) in d.Repr
    ensures At(d, t, path) != null && path != [] ==> At(d, t, path) != d
    decreases t
  {
    if path != [] && d != null && t.value.DictNode? && path[0] < |d.data.dpVec| {
      EachAt(d.data.dpVec, t.value.children, d.Repr - {d}, path[0]);
      AtIsOwned(d.data.dpVec[path[0]], t.value.children[path[0]], path[1..]);
    }
  }

  /** Every object owned is found along some path ... */
  lemma {:induction false} OwnedIsReachable(d: Datapoint, t: Option<Tree>, o: Datapoint) returns (path: seq<nat>)
    requires Represents(d, t) && o in d.Repr
    ensures At(d, t, path) == o
    decreases t
  {
    if o == d {
      path := [];
    } else {
      var i := EachCovers(d.data.dpVec, t.value.children, d.Repr - {d}, o);
      EachAt(d.data.dpVec, t.value.children, d.Repr - {d}, i);
      var rest := OwnedIsReachable(d.data.dpVec[i], t.value.children[i], o);
      path := [i] + rest;
      assert path[1..] == rest;
    }
  }

  /** ... and along no other. */
  lemma {:induction false} OnePathToEachObject(d: Datapoint?, t: Option<Tree>, p: seq<nat>, q: seq<nat>)
    requires Represents(d, t)
    requires At(d, t, p) == At(d, t, q) && At(d, t, p) != null
    ensures p == q
    decreases t
  {
    AtIsOwned(d, t, p);
    AtIsOwned(d, t, q);
    if p != [] && q != [] {
      var ds, ts := d.data.dpVec, t.value.children;
      EachAt(ds, ts, d.Repr - {d}, p[0]);
      EachAt(ds, ts, d.Repr - {d}, q[0]);
      AtIsOwned(ds[p[0]], ts[p[0]], p[1..]);
      AtIsOwned(ds[q[0]], ts[q[0]], q[1..]);
      if p[0] < q[0] {
        EachDisjoint(ds, ts, d.Repr - {d}, p[0], q[0]);
      } else if q[0] < p[0] {
        EachDisjoint(ds, ts, d.Repr - {d}, q[0], p[0]);
      }
      OnePathToEachObject(ds[p[0]], ts[p[0]], p[1..], q[1..]);
      assert p == [p[0]] + p[1..] && q == [q[0]] + q[1..];
    }
  }

  /** What an object of the heap has of the node of the tree that it represents: name and payload, or as many children,
      null where the tree has none, each of which represents its own node. */
  lemma RepresentsMeans(d: Datapoint?, t: Option<Tree>)
    requires Represents(d, t)
    ensures d == null <==> t.None?
    ensures d != null ==> d.name == t.value.name
    ensures d != null && t.value.LeafNode? ==> d.data == Scalar(t.value.leaf)
    ensures d != null && t.value.DictNode? ==>
              && d.data.Dict? && |d.data.dpVec| == |t.value.children|
              && forall i :: 0 <= i < |t.value.children| ==>
                   && (d.data.dpVec[i] != null ==> d.data.dpVec[i] in d.Repr && d.data.dpVec[i] != d)
                   && Footprint(d.data.dpVec[i]) <= d.Repr
                   && Represents(d.data.dpVec[i], t.value.children[i])
  {
    if d != null && t.value.DictNode? {
      forall i | 0 <= i < |t.value.children|
        ensures d.data.dpVec[i] != null ==> d.data.dpVec[i] in d.Repr - {d}
        ensures Footprint(d.data.dpVec[i]) <= d.Repr && Represents(d.data.dpVec[i], t.value.children[i])
      {
        EachAt(d.data.dpVec, t.value.children, d.Repr - {d}, i);
      }
    }
  }

  // ---------------------------------------------------------------- the conversion

  method CreateDatapoint(ghost heap: Allocations, dataName: string, leaf: Leaf) returns (datapoint: Datapoint)
    modifies heap
    ensures fresh(datapoint) && Represents(datapoint, Some(LeafNode(dataName, leaf)))
    ensures heap.live == old(heap.live) + {datapoint}
  {
    datapoint := new Datapoint(dataName, Scalar(leaf), {});
    heap.live := heap.live + {datapoint};
  }

  method CreateComplexDatapoint(ghost heap: Allocations, dataName: string, values: seq<Datapoint?>,
                                ghost ts: seq<Option<Tree>>, ghost owned: set<Datapoint>)
    returns (datapoint: Datapoint)
    requires RepresentsEach(values, ts, owned)
    modifies heap
    ensures fresh(datapoint) && Represents(datapoint, Some(DictNode(dataName, ts)))
    ensures datapoint.Repr == {datapoint} + owned && heap.live == old(heap.live) + {datapoint}
  {
    datapoint := new Datapoint(dataName, Dict(values), owned);
    heap.live := heap.live + {datapoint};
    assert datapoint.Repr - {datapoint} == owned;
  }

  /** The conversion does what `Build` says. When it returns, everything it allocated is owned by the
      datapoint returned; when it throws, what it had allocated is owned by nobody. */
  method BuildDatapointFromMms(ghost heap: Allocations, mmsValue: MmsValue, mmsNameNode: Option<NameTree>)
    returns (r: Result<Datapoint?, MmsError>)
    requires !Build(mmsValue, mmsNameNode).Undefined?
    modifies heap
    ensures r.Failure? <==> Build(mmsValue, mmsNameNode).Throws?
    ensures r.Failure? ==> Build(mmsValue, mmsNameNode) == Throws(r.error)
    ensures r.Failure? ==> old(heap.live) <= heap.live && fresh(heap.live - old(heap.live))
    ensures r.Success? ==>
              && Build(mmsValue, mmsNameNode).Done? && Represents(r.value, Build(mmsValue, mmsNameNode).value)
              && fresh(Footprint(r.value)) && heap.live == old(heap.live) + Footprint(r.value)
    decreases mmsValue
  {
    if mmsValue.Missing? {
      return Failure(InputIsNull);
    }
    if mmsNameNode.None? {
      return Failure(NameNodeIsNull);
    }
    var node := mmsNameNode.value;
    var mmsName := node.mmsName;
    var datapoint: Datapoint? := null;
    ghost var unnamed: Option<Tree> := None;
    match mmsValue {
      case Composite(_, elems) =>
        if |elems| != |node.children| {
          return Failure(StructureMismatch);
        }
        if mmsName == MAG {
          var first := BuildDatapointFromMms(heap, elems[0], Some(node.children[0]));
          if first.Failure? {
            assert Convert(mmsValue, node) == Throws(first.error);
            return Failure(first.error);
          }
          datapoint := first.value;
          unnamed := Convert(elems[0], node.children[0]).value;
          datapoint.name := mmsName + "." + datapoint.name;
          unnamed := Some(WithName(unnamed.value, MAG + "." + unnamed.value.name));
        } else {
          var dpArray, ts, owned, error := BuildEach(heap, elems, node.children);
          if error.Some? {
            return Failure(error.value);
          }
          datapoint := CreateComplexDatapoint(heap, mmsName, dpArray, ts, owned);
          unnamed := Some(DictNode(mmsName, ts));
        }
      case Missing => assert false;
      case AccessError(_) =>
      case Unsupported(typeName) =>
        return Failure(UnsupportedType(typeName));
      case _ =>
        datapoint := CreateDatapoint(heap, mmsName, LeafOf(mmsValue).value);
        unnamed := Some(LeafNode(mmsName, LeafOf(mmsValue).value));
    }
    if datapoint != null {
      if datapoint.name in DO_READING_MAPPING {
        datapoint.name := DO_READING_MAPPING[datapoint.name];
      }
    }
    r := Success(datapoint);
  }

  /** The loop over the elements of a structure. */
  method BuildEach(ghost heap: Allocations, elems: seq<MmsValue>, names: seq<NameTree>)
    returns (dpArray: seq<Datapoint?>, ghost ts: seq<Option<Tree>>, ghost owned: set<Datapoint>,
             error: Option<MmsError>)
    requires |elems| == |names| && !ConvertEach(elems, names).Undefined?
    modifies heap
    ensures old(heap.live) <= heap.live && fresh(heap.live - old(heap.live))
    ensures error.Some? ==> ConvertEach(elems, names) == Throws(error.value)
    ensures error.None? ==>
              && ConvertEach(elems, names) == Done(ts) && RepresentsEach(dpArray, ts, owned)
              && fresh(owned) && heap.live == old(heap.live) + owned
    decreases elems
  {
    dpArray, ts, owned := [], [], {};
    var index := 0;
    while index < |elems|
      invariant 0 <= index <= |elems|
      invariant ConvertEach(elems[..index], names[..index]) == Done(ts) && RepresentsEach(dpArray, ts, owned)
      invariant fresh(owned) && heap.live == old(heap.live) + owned
    {
      ConvertEachPrefix(elems, names, index);
      var dpChild := BuildDatapointFromMms(heap, elems[index], Some(names[index]));
      if dpChild.Failure? {
        return dpArray, ts, owned, Some(dpChild.error);
      }
      RepresentsOneMore(dpArray, ts, owned, dpChild.value, Convert(elems[index], names[index]).value);
      dpArray := dpArray + [dpChild.value];
      ts := ts + [Convert(elems[index], names[index]).value];
      owned := owned + Footprint(dpChild.value);
      index := index + 1;
    }
    assert elems[..index] == elems && names[..index] == names;
    error := None;
  }

  /** Converting a structured object adds one node, at index 0. */
  method InsertTypeInDatapoint(ghost heap: Allocations, datapoint: Datapoint?, doType: string, ghost t: Option<Tree>)
    requires Represents(datapoint, t)
    modifies heap, datapoint
    ensures Represents(datapoint, WithType(t, doType))
    ensures old(Footprint(datapoint)) <= Footprint(datapoint)
    ensures fresh(Footprint(datapoint) - old(Footprint(datapoint)))
    ensures heap.live == old(heap.live) + (Footprint(datapoint) - old(Footprint(datapoint)))
  {
    if datapoint == null {
      return;
    }
    if datapoint.data.Dict? {
      ghost var below := datapoint.Repr - {datapoint};
      var typePoint := CreateDatapoint(heap, "do_type", TextLeaf(doType));
      datapoint.data := Dict([typePoint] + datapoint.data.dpVec);
      datapoint.Repr := datapoint.Repr + {typePoint};
      assert datapoint.Repr - {datapoint} - {typePoint} == below;
      assert datapoint.data.dpVec[1..] == old(datapoint.data.dpVec);
      assert WithType(t, doType).value.children[1..] == t.value.children;
    }
  }

  method ConvertMmsToDatapoint(ghost heap: Allocations, mmsValue: MmsValue, mmsNameTree: Option<NameTree>,
                               datapointType: string)
    returns (r: Result<Datapoint?, MmsError>)
    requires !ConvertObject(mmsValue, mmsNameTree, datapointType).Undefined?
    modifies heap
    ensures r.Failure? ==> ConvertObject(mmsValue, mmsNameTree, datapointType) == Throws(r.error)
    ensures r.Failure? ==> old(heap.live) <= heap.live && fresh(heap.live - old(heap.live))
    ensures r.Success? ==>
              && ConvertObject(mmsValue, mmsNameTree, datapointType).Done?
              && Represents(r.value, ConvertObject(mmsValue, mmsNameTree, datapointType).value)
              && fresh(Footprint(r.value)) && heap.live == old(heap.live) + Footprint(r.value)
  {
    if mmsValue.Missing? {
      return Success(null);
    }
    r := BuildDatapointFromMms(heap, mmsValue, mmsNameTree);
    if r.Failure? {
      return;
    }
    InsertTypeInDatapoint(heap, r.value, datapointType, Build(mmsValue, mmsNameTree).value);
  }
}
