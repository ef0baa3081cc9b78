/** From the walk of a server's directory to the conversion of the values that the server sends. */
module EndToEnd {
  import opened Outcomes
  import opened Mms
  import opened Connection

  /** The type of a data object: named attributes, and none for a leaf. */
  datatype Attribute = Attribute(name: string, attributes: seq<Attribute>)

  function AttributeNames(attributes: seq<Attribute>): seq<string> {
    seq(|attributes|, i requires 0 <= i < |attributes| => attributes[i].name)
  }

  /** The directory below `path` is that of these attributes, at every depth. */
  ghost predicate Serves(directory: map<(string, FunctionalConstraint), seq<string>>, path: string,
                         fc: FunctionalConstraint, attributes: seq<Attribute>)
    decreases attributes
  {
    && ((path, fc) in directory ==> directory[(path, fc)] == AttributeNames(attributes))
    && ((path, fc) !in directory ==> attributes == [])
    && forall i :: 0 <= i < |attributes| ==>
         Serves(directory, path + "." + attributes[i].name, fc, attributes[i].attributes)
  }

  /** A value of that type. The server may put an access error in the place of any part of it. */
  predicate IsInstance(v: MmsValue, attributes: seq<Attribute>)
    decreases attributes
  {
    v.AccessError? ||
    if attributes == [] then !v.Missing? && !v.Composite?
    else
      && v.Composite? && |v.elems| == |attributes|
      && forall i :: 0 <= i < |attributes| ==> IsInstance(v.elems[i], attributes[i].attributes)
  }

  function NameTrees(attributes: seq<Attribute>): seq<NameTree>
    decreases attributes
  {
    seq(|attributes|, i requires 0 <= i < |attributes| =>
      NameTree(attributes[i].name, NameTrees(attributes[i].attributes)))
  }

  /** The names below a path are those of the attributes served there. */
  lemma {:induction false} NamesOfServed(model: DataModel, path: string, fc: FunctionalConstraint,
                                         attributes: seq<Attribute>)
    requires Serves(model.directory, path, fc, attributes)
    ensures Names(model, path, fc) == NameTrees(attributes)
    decreases attributes, 1, 0
  {
    if (path, fc) in model.directory {
      assert AttributeNames(attributes[0..]) == model.directory[(path, fc)];
      NamesOfServedFrom(model, path, fc, attributes, 0);
    }
  }

  lemma {:induction false} NamesOfServedFrom(model: DataModel, path: string, fc: FunctionalConstraint,
                                             attributes: seq<Attribute>, from: nat)
    requires (path, fc) in model.directory && Serves(model.directory, path, fc, attributes)
    requires from <= |attributes|
    ensures NamesEach(model, path, fc, AttributeNames(attributes[from..])) == NameTrees(attributes)[from..]
    decreases attributes, 0, |attributes| - from
  {
    if from < |attributes| {
      var names := AttributeNames(attributes[from..]);
      var a := attributes[from];
      assert names[0] == a.name && names[1..] == AttributeNames(attributes[from + 1..]);
      NamesOfServed(model, path + "." + a.name, fc, a.attributes);
      NamesOfServedFrom(model, path, fc, attributes, from + 1);
      assert NameTrees(attributes)[from..] == [NameTrees(attributes)[from]] + NameTrees(attributes)[from + 1..];
    }
  }

  // ---------------------------------------------------------------- the values

  /** The value and the name tree have the same shape, down to the parts that no conversion visits. */
  predicate SameShape(v: MmsValue, t: NameTree) {
    v.AccessError? ||
    if v.Composite? then
      && |v.elems| == |t.children|
      && forall i :: 0 <= i < |v.elems| ==> SameShape(v.elems[i], t.children[i])
    else !v.Missing? && t.children == []
  }

  lemma {:induction false} InstancesHaveShape(v: MmsValue, name: string, attributes: seq<Attribute>)
    requires IsInstance(v, attributes)
    ensures SameShape(v, NameTree(name, NameTrees(attributes)))
    decreases attributes
  {
    if v.Composite? {
      forall i | 0 <= i < |v.elems|
        ensures SameShape(v.elems[i], NameTrees(attributes)[i])
      {
        InstancesHaveShape(v.elems[i], attributes[i].name, attributes[i].attributes);
      }
    }
  }

  /** The type name of the first element of an unsupported type among those that a conversion visits. */
  function FirstUnsupported(v: MmsValue, t: NameTree): Option<string> {
    if v.Unsupported? then Some(v.typeName)
    else if !v.Composite? || |v.elems| != |t.children| then None
    else if t.mmsName == MAG then (if v.elems == [] then None else FirstUnsupported(v.elems[0], t.children[0]))
    else FirstUnsupportedOf(v.elems, t.children)
  }

  function FirstUnsupportedOf(elems: seq<MmsValue>, names: seq<NameTree>): Option<string>
    requires |elems| == |names|
  {
    if elems == [] then None
    else if FirstUnsupported(elems[0], names[0]).Some? then FirstUnsupported(elems[0], names[0])
    else FirstUnsupportedOf(elems[1..], names[1..])
  }

  /** What a conversion of a value of the right shape does: it is undefined if it gets to a degenerate `mag`
      structure; otherwise it returns, unless an element visited has an unsupported type: then that is what it throws. */
  lemma {:induction false} ShapedValuesConvert(v: MmsValue, t: NameTree)
    requires SameShape(v, t)
    ensures if ReachesBadMag(v, t) then Convert(v, t).Undefined?
            else match FirstUnsupported(v, t)
                 case None => Convert(v, t).Done?
                 case Some(typeName) => Convert(v, t) == Throws(UnsupportedType(typeName))
  {
    UndefinedExactly(v, t);
    if v.Composite? {
      if t.mmsName == MAG {
        if v.elems != [] && !v.elems[0].AccessError? {
          ShapedValuesConvert(v.elems[0], t.children[0]);
          ConvertsIffMatches(v.elems[0], t.children[0]);
        }
      } else {
        ShapedValuesConvertEach(v.elems, t.children);
      }
    }
  }

  lemma {:induction false} ShapedValuesConvertEach(elems: seq<MmsValue>, names: seq<NameTree>)
    requires |elems| == |names|
    requires forall i :: 0 <= i < |elems| ==> SameShape(elems[i], names[i])
    ensures ConvertEach(elems, names).Undefined? ||
            match FirstUnsupportedOf(elems, names)
            case None => ConvertEach(elems, names).Done?
            case Some(typeName) => ConvertEach(elems, names) == Throws(UnsupportedType(typeName))
  {
    if elems != [] {
      ShapedValuesConvert(elems[0], names[0]);
      UndefinedExactly(elems[0], names[0]);
      ShapedValuesConvertEach(elems[1..], names[1..]);
    }
  }

  /** A server may well send a degenerate `mag` structure: an access error in the place of its value. */
  lemma DegenerateMagIsServed(name: string, code: int)
    requires name != MAG
    ensures var attributes := [Attribute("mag", [Attribute("f", [])])];
            var v := Composite(Structure, [Composite(Structure, [AccessError(code)])]);
            var t := NameTree(name, NameTrees(attributes));
            IsInstance(v, attributes) && SameShape(v, t) && Convert(v, t).Undefined?
  {
    var attributes := [Attribute("mag", [Attribute("f", [])])];
    var mag := Composite(Structure, [AccessError(code)]);
    var v, t := Composite(Structure, [mag]), NameTree(name, NameTrees(attributes));
    assert IsInstance(mag, attributes[0].attributes) by {
      assert IsInstance(mag.elems[0], attributes[0].attributes[0].attributes);
    }
    InstancesHaveShape(v, name, attributes);
    assert ReachesBadMag(v.elems[0], t.children[0]) && ReachesBadMag(v, t);
    UndefinedExactly(v, t);
  }

  /** From the walk to the conversion: whatever the model the server serves, the tree that the walk builds
      fits every value of that model, and converting one never meets a structure mismatch. */
  lemma WalkedTreesConvert(answers: Answers, path: string, fc: FunctionalConstraint, attributes: seq<Attribute>,
                           clock: nat, error: int, name: string, v: MmsValue)
    requires Serves(answers.model.directory, path, fc, attributes)
    requires UpDuring(answers, clock, Walk(answers, path, fc, clock, error).clock)
    requires IsInstance(v, attributes)
    ensures var t := NameTree(name, Walk(answers, path, fc, clock, error).nodes);
            && SameShape(v, t)
            && if ReachesBadMag(v, t) then Convert(v, t).Undefined?
               else match FirstUnsupported(v, t)
                    case None => Convert(v, t).Done?
                    case Some(typeName) => Convert(v, t) == Throws(UnsupportedType(typeName))
  {
    WalkFindsNames(answers, path, fc, clock, error);
    NamesOfServed(answers.model, path, fc, attributes);
    InstancesHaveShape(v, name, attributes);
    ShapedValuesConvert(v, NameTree(name, Walk(answers, path, fc, clock, error).nodes));
  }
}
