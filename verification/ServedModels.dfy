/** Every finite data model has a directory that serves it. */
module ServedModels {
  import opened Connection
  import opened EndToEnd

  /** Sibling names differ and hold no dot, at every depth. */
  ghost predicate WellNamed(attributes: seq<Attribute>)
    decreases attributes
  {
    && (forall i :: 0 <= i < |attributes| ==> '.' !in attributes[i].name && WellNamed(attributes[i].attributes))
    && (forall i, j :: 0 <= i < j < |attributes| ==> attributes[i].name != attributes[j].name)
  }

  type Directory = map<(string, FunctionalConstraint), seq<string>>

  /** The directory of the attributes at `path`. */
  function DirectoryOf(path: string, fc: FunctionalConstraint, attributes: seq<Attribute>): Directory
    decreases attributes, 1
  {
    if attributes == [] then map[]
    else Below(path, fc, attributes)[(path, fc) := AttributeNames(attributes)]
  }

  function Below(path: string, fc: FunctionalConstraint, attributes: seq<Attribute>): Directory
    decreases attributes, 0
  {
    if attributes == [] then map[]
    else
      assert attributes[0] in attributes;
      Below(path, fc, attributes[1..])
      + DirectoryOf(path + "." + attributes[0].name, fc, attributes[0].attributes)
  }

  predicate Under(path: string, root: string) {
    path == root || root + "." <= path
  }

  lemma UnderOneSibling(path: string, root: string, a: string, b: string)
    requires '.' !in a && '.' !in b
    requires Under(path, root + "." + a) && Under(path, root + "." + b)
    ensures a == b
  {
    var n := |root| + 1;
    assert forall k :: 0 <= k < |a| ==> path[n + k] == a[k] == (root + "." + a)[n + k];
    assert forall k :: 0 <= k < |b| ==> path[n + k] == b[k] == (root + "." + b)[n + k];
    assert |path| > n + |a| ==> path[n + |a|] == (root + "." + a + ".")[n + |a|] == '.';
    assert |path| > n + |b| ==> path[n + |b|] == (root + "." + b + ".")[n + |b|] == '.';
  }

  lemma UnderChild(path: string, root: string, name: string)
    requires Under(path, root + "." + name)
    ensures Under(path, root) && path != root
  {
  }

  lemma {:induction false} KeysAreUnder(path: string, fc: FunctionalConstraint, attributes: seq<Attribute>)
    ensures forall k :: k in DirectoryOf(path, fc, attributes) ==> k.1 == fc && Under(k.0, path)
    decreases attributes, 1
  {
    KeysBelow(path, fc, attributes);
    forall k | k in Below(path, fc, attributes)
      ensures k.1 == fc && Under(k.0, path)
    {
      var i :| 0 <= i < |attributes| && Under(k.0, path + "." + attributes[i].name);
      UnderChild(k.0, path, attributes[i].name);
    }
  }

  lemma {:induction false} KeysBelow(path: string, fc: FunctionalConstraint, attributes: seq<Attribute>)
    ensures forall k :: k in Below(path, fc, attributes) ==>
              k.1 == fc && exists i :: 0 <= i < |attributes| && Under(k.0, path + "." + attributes[i].name)
    decreases attributes, 0
  {
    if attributes != [] {
      assert attributes[0] in attributes;
      KeysAreUnder(path + "." + attributes[0].name, fc, attributes[0].attributes);
      KeysBelow(path, fc, attributes[1..]);
      forall k | k in Below(path, fc, attributes)
        ensures k.1 == fc && exists i :: 0 <= i < |attributes| && Under(k.0, path + "." + attributes[i].name)
      {
        if k in Below(path, fc, attributes[1..]) {
          var i :| 0 <= i < |attributes| - 1 && Under(k.0, path + "." + attributes[1..][i].name);
          assert attributes[1..][i] == attributes[i + 1];
        }
      }
    }
  }

  /** Below one attribute the directory is that of the attribute. */
  lemma {:induction false} BelowAt(path: string, fc: FunctionalConstraint, attributes: seq<Attribute>, i: nat,
                                   k: (string, FunctionalConstraint))
    requires WellNamed(attributes) && i < |attributes| && Under(k.0, path + "." + attributes[i].name)
    ensures var one := DirectoryOf(path + "." + attributes[i].name, fc, attributes[i].attributes);
            var all := Below(path, fc, attributes);
            (k in all <==> k in one) && (k in one ==> all[k] == one[k])
    decreases |attributes|
  {
    var first := attributes[0];
    var child := DirectoryOf(path + "." + first.name, fc, first.attributes);
    if i == 0 {
      KeysBelow(path, fc, attributes[1..]);
      if k in Below(path, fc, attributes[1..]) {
        var j :| 0 <= j < |attributes| - 1 && Under(k.0, path + "." + attributes[1..][j].name);
        UnderOneSibling(k.0, path, first.name, attributes[1..][j].name);
        assert false;
      }
    } else {
      BelowAt(path, fc, attributes[1..], i - 1, k);
      KeysAreUnder(path + "." + first.name, fc, first.attributes);
      if k in child {
        UnderOneSibling(k.0, path, first.name, attributes[i].name);
        assert false;
      }
    }
  }

  ghost predicate Agrees(directory: Directory, own: Directory, path: string, fc: FunctionalConstraint) {
    forall p: string :: Under(p, path) ==>
      ((p, fc) in directory <==> (p, fc) in own) && ((p, fc) in own ==> directory[(p, fc)] == own[(p, fc)])
  }

  /** A directory that agrees with that of the attributes, as far as it lies under `path`, serves them. */
  lemma {:induction false} AgreeingDirectoryServes(directory: Directory, path: string, fc: FunctionalConstraint,
                                                   attributes: seq<Attribute>)
    requires WellNamed(attributes)
    requires Agrees(directory, DirectoryOf(path, fc, attributes), path, fc)
    ensures Serves(directory, path, fc, attributes)
    decreases attributes
  {
    assert attributes == [] ==> (path, fc) !in DirectoryOf(path, fc, attributes);
    assert (path, fc) in directory <==> (path, fc) in DirectoryOf(path, fc, attributes);
    forall i | 0 <= i < |attributes|
      ensures Serves(directory, path + "." + attributes[i].name, fc, attributes[i].attributes)
    {
      var child := path + "." + attributes[i].name;
      forall p: string | Under(p, child)
        ensures var own := DirectoryOf(child, fc, attributes[i].attributes);
                ((p, fc) in directory <==> (p, fc) in own) && ((p, fc) in own ==> directory[(p, fc)] == own[(p, fc)])
      {
        UnderChild(p, path, attributes[i].name);
        BelowAt(path, fc, attributes, i, (p, fc));
      }
      AgreeingDirectoryServes(directory, child, fc, attributes[i].attributes);
    }
  }

  lemma EveryModelIsServed(path: string, fc: FunctionalConstraint, attributes: seq<Attribute>)
    requires WellNamed(attributes)
    ensures Serves(DirectoryOf(path, fc, attributes), path, fc, attributes)
  {
    AgreeingDirectoryServes(DirectoryOf(path, fc, attributes), path, fc, attributes);
  }
}
