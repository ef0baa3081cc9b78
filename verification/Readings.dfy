/** What a read exports, on values, and the plugin that receives it. */
module Readings {
  import opened Outcomes
  import opened Mms
  import opened Connection
  import opened Datapoints
  import opened Selection

  // ---------------------------------------------------------------- readings, on values

  datatype Reading = Reading(assetName: string, point: Tree)

  /** What the value read for an entry is exported as: nothing when the entry is skipped (`None`) or when the
      conversion gives the null datapoint. */
  function Exported(e: Entry, value: Option<MmsValue>): Outcome<seq<Reading>> {
    match value
    case None => Done([])
    case Some(v) =>
      match ConvertObject(v, e.tree, e.datapointType)
      case Throws(error) => Throws(error)
      case Undefined => Undefined
      case Done(None) => Done([])
      case Done(Some(d)) => Done([Reading(d.name, d)])
  }

  /** The first entry whose conversion does not return. */
  function StopsAt(entries: seq<Entry>, values: seq<Option<MmsValue>>): (n: nat)
    requires |entries| == |values|
    ensures n <= |entries|
    ensures forall i :: 0 <= i < n ==> Exported(entries[i], values[i]).Done?
    ensures n < |entries| ==> !Exported(entries[n], values[n]).Done?
  {
    if entries == [] || !Exported(entries[0], values[0]).Done? then 0
    else
      assert forall i :: 1 <= i < |entries| ==> entries[i] == entries[1..][i - 1] && values[i] == values[1..][i - 1];
      1 + StopsAt(entries[1..], values[1..])
  }

  /** The readings of the first `n` entries, in order. */
  function ReadingsOf(entries: seq<Entry>, values: seq<Option<MmsValue>>, n: nat): seq<Reading>
    requires n <= |entries| == |values|
    requires forall i :: 0 <= i < n ==> Exported(entries[i], values[i]).Done?
  {
    if n == 0 then [] else ReadingsOf(entries, values, n - 1) + Exported(entries[n - 1], values[n - 1]).value
  }

  /** Fewer entries give a prefix of the readings. */
  lemma {:induction false} ReadingsArePrefix(entries: seq<Entry>, values: seq<Option<MmsValue>>, m: nat, n: nat)
    requires m <= n <= |entries| == |values|
    requires forall i :: 0 <= i < n ==> Exported(entries[i], values[i]).Done?
    ensures ReadingsOf(entries, values, m) <= ReadingsOf(entries, values, n)
  {
    if m < n {
      ReadingsArePrefix(entries, values, m, n - 1);
    }
  }

  /** Entry `i` contributes the reading of its own value, after those of the entries before it, and contributes
      one exactly when it is not skipped and converts to a datapoint. */
  lemma ReadingInOrder(entries: seq<Entry>, values: seq<Option<MmsValue>>, i: nat, n: nat)
    requires i < n <= |entries| == |values|
    requires forall k :: 0 <= k < n ==> Exported(entries[k], values[k]).Done?
    ensures var at := |ReadingsOf(entries, values, i)|;
            var own := Exported(entries[i], values[i]).value;
            && at + |own| == |ReadingsOf(entries, values, i + 1)| <= |ReadingsOf(entries, values, n)|
            && ReadingsOf(entries, values, n)[at..at + |own|] == own
            && (|own| == 1 <==>
                  && values[i].Some?
                  && ConvertObject(values[i].value, entries[i].tree, entries[i].datapointType).value.Some?)
            && |own| <= 1
  {
    ReadingsArePrefix(entries, values, i + 1, n);
    var upTo := ReadingsOf(entries, values, i + 1);
    assert ReadingsOf(entries, values, n)[..|upTo|] == upTo;
  }

  /** What a read sends, and how it ends. */
  datatype Poll = Poll(sent: seq<Reading>, end: Outcome<()>)

  /** The readings up to the first conversion that does not return. */
  function PollOf(entries: seq<Entry>, values: seq<Option<MmsValue>>): Poll
    requires |entries| == |values|
  {
    var n := StopsAt(entries, values);
    Poll(ReadingsOf(entries, values, n),
         if n == |entries| then Done(())
         else match Exported(entries[n], values[n])
              case Throws(error) => Throws(error)
              case _ => Undefined)
  }

  lemma StopsAtFirst(entries: seq<Entry>, values: seq<Option<MmsValue>>, n: nat)
    requires n <= |entries| == |values|
    requires forall i :: 0 <= i < n ==> Exported(entries[i], values[i]).Done?
    requires n < |entries| ==> !Exported(entries[n], values[n]).Done?
    ensures StopsAt(entries, values) == n
  {
  }

  // ---------------------------------------------------------------- datasets

  /** The values of a dataset, at the index of their entry; entries without a label are skipped. */
  function DatasetValues(entries: seq<Entry>, elems: seq<MmsValue>): (r: seq<Option<MmsValue>>)
    requires |entries| == |elems|
    ensures |r| == |entries|
    ensures forall i :: 0 <= i < |r| ==> r[i] == if entries[i].dpLabel == "" then None else Some(elems[i])
  {
    seq(|entries|, i requires 0 <= i < |entries| => if entries[i].dpLabel == "" then None else Some(elems[i]))
  }

  /** The value is an array with one element per entry. */
  predicate IsDatasetOf(value: MmsValue, entries: seq<Entry>) {
    value.Composite? && value.kind.Array? && |value.elems| == |entries|
  }

  /** What the value read for a dataset sends: nothing unless it is an array with one element per entry. */
  function DatasetPoll(entries: seq<Entry>, value: MmsValue): Poll {
    if IsDatasetOf(value, entries) then PollOf(entries, DatasetValues(entries, value.elems))
    else Poll([], Throws(StructureMismatch))
  }

  /** Anything but an array with one element per entry throws, and sends nothing; a structure is no array. */
  lemma OnlyArraysAreSplit(entries: seq<Entry>, elems: seq<MmsValue>, other: MmsValue)
    requires !other.Composite?
    ensures DatasetPoll(entries, Composite(Structure, elems)) == Poll([], Throws(StructureMismatch))
    ensures DatasetPoll(entries, other) == Poll([], Throws(StructureMismatch))
    ensures |elems| != |entries| ==> DatasetPoll(entries, Composite(Array, elems)) == Poll([], Throws(StructureMismatch))
    ensures |elems| == |entries| ==>
              DatasetPoll(entries, Composite(Array, elems)) == PollOf(entries, DatasetValues(entries, elems))
  {
  }

  /** What an entry contributes: nothing if it has no label or if its element converts to null, otherwise the
      reading converted from its element. */
  function Contribution(e: Entry, elem: MmsValue): seq<Reading> {
    if e.dpLabel == "" then []
    else match ConvertObject(elem, e.tree, e.datapointType)
         case Done(Some(d)) => [Reading(d.name, d)]
         case _ => []
  }

  function Contributions(entries: seq<Entry>, elems: seq<MmsValue>): seq<Reading>
    requires |entries| == |elems|
  {
    if entries == [] then []
    else Contribution(entries[0], elems[0]) + Contributions(entries[1..], elems[1..])
  }

  lemma {:induction false} ReadingsOfSplit(entries: seq<Entry>, values: seq<Option<MmsValue>>, n: nat)
    requires 0 < n <= |entries| == |values|
    requires forall i :: 0 <= i < n ==> Exported(entries[i], values[i]).Done?
    ensures forall i :: 0 <= i < n - 1 ==> Exported(entries[1..][i], values[1..][i]).Done?
    ensures ReadingsOf(entries, values, n)
              == Exported(entries[0], values[0]).value + ReadingsOf(entries[1..], values[1..], n - 1)
  {
    assert forall i :: 0 <= i < n - 1 ==> entries[1..][i] == entries[i + 1] && values[1..][i] == values[i + 1];
    if n > 1 {
      ReadingsOfSplit(entries, values, n - 1);
    }
  }

  lemma OwnContribution(e: Entry, elem: MmsValue)
    requires Exported(e, if e.dpLabel == "" then None else Some(elem)).Done?
    ensures Exported(e, if e.dpLabel == "" then None else Some(elem)).value == Contribution(e, elem)
  {
  }

  lemma {:induction false} FirstContributions(entries: seq<Entry>, elems: seq<MmsValue>, n: nat)
    requires n <= |entries| == |elems|
    requires forall i :: 0 <= i < n ==> Exported(entries[i], DatasetValues(entries, elems)[i]).Done?
    ensures ReadingsOf(entries, DatasetValues(entries, elems), n) <= Contributions(entries, elems)
    ensures n == |entries| ==> ReadingsOf(entries, DatasetValues(entries, elems), n) == Contributions(entries, elems)
    decreases |entries|
  {
    hide Exported, Contribution;
    if n > 0 {
      var values := DatasetValues(entries, elems);
      assert values[1..] == DatasetValues(entries[1..], elems[1..]);
      ReadingsOfSplit(entries, values, n);
      FirstContributions(entries[1..], elems[1..], n - 1);
      assert Exported(entries[0], values[0]).Done?;
      OwnContribution(entries[0], elems[0]);
    }
  }

  /** The readings sent for a dataset are the contributions of its members, in their order, each from the element
      at its own index; if a conversion throws, what was sent is a prefix of them. */
  lemma DatasetSplit(entries: seq<Entry>, elems: seq<MmsValue>)
    requires |entries| == |elems|
    ensures var poll := PollOf(entries, DatasetValues(entries, elems));
            && poll.sent <= Contributions(entries, elems)
            && (poll.end.Done? ==> poll.sent == Contributions(entries, elems))
  {
    FirstContributions(entries, elems, StopsAt(entries, DatasetValues(entries, elems)));
  }

  /** Reading a dataset over a link that is down gives no object, and its value is taken without a test. */
  function DatasetRead(answers: Answers, entries: seq<Entry>, ref: string, clock: nat): Poll {
    if answers.isUp(clock) then DatasetPoll(entries, answers.readDataset(clock + 1, ref)) else Poll([], Undefined)
  }

  /** What reading the datasets one after the other sends, each with two calls from call `clock` on; the first that
      does not return ends it. */
  function DatasetsPoll(answers: Answers, views: map<string, seq<Entry>>, order: seq<string>, clock: nat): Poll
    requires forall i :: 0 <= i < |order| ==> order[i] in views
    decreases |order|
  {
    if order == [] then Poll([], Done(()))
    else
      var first := DatasetRead(answers, views[order[0]], order[0], clock);
      if !first.end.Done? then first
      else
        var rest := DatasetsPoll(answers, views, order[1..], clock + 2);
        Poll(first.sent + rest.sent, rest.end)
  }

  lemma FirstDataset(answers: Answers, views: map<string, seq<Entry>>, order: seq<string>, clock: nat)
    requires order != [] && forall i :: 0 <= i < |order| ==> order[i] in views
    ensures DatasetsPoll(answers, views, [], clock) == Poll([], Done(()))
    ensures var first := DatasetRead(answers, views[order[0]], order[0], clock);
            var rest := DatasetsPoll(answers, views, order[1..], clock + 2);
            DatasetsPoll(answers, views, order, clock)
              == if first.end.Done? then Poll(first.sent + rest.sent, rest.end) else first
  {
  }

  /** Every dataset whose read is reached is sent right after those before it, from its own read with the calls after
      theirs. */
  lemma {:induction false} DatasetsInOrder(answers: Answers, views: map<string, seq<Entry>>, order: seq<string>, clock: nat,
                                           i: nat)
    requires forall k :: 0 <= k < |order| ==> order[k] in views
    requires i < |order| && DatasetsPoll(answers, views, order[..i], clock).end.Done?
    ensures var before := DatasetsPoll(answers, views, order[..i], clock);
            var own := DatasetRead(answers, views[order[i]], order[i], clock + 2 * i);
            var rest := DatasetsPoll(answers, views, order[i + 1..], clock + 2 * (i + 1));
            DatasetsPoll(answers, views, order, clock)
              == if own.end.Done? then Poll(before.sent + (own.sent + rest.sent), rest.end)
                 else Poll(before.sent + own.sent, own.end)
    decreases i
  {
    hide DatasetRead, DatasetsPoll;
    FirstDataset(answers, views, order, clock);
    if i == 0 {
      assert order[..0] == [];
    } else {
      var next := order[1..];
      assert order[..i][1..] == next[..i - 1] && next[i..] == order[i + 1..] && next[i - 1] == order[i];
      FirstDataset(answers, views, order[..i], clock);
      DatasetsInOrder(answers, views, next, clock + 2, i - 1);
    }
  }

  /** `whole` is `rest` after these readings. */
  predicate Continues(whole: Poll, sent: seq<Reading>, rest: Poll) {
    whole == Poll(sent + rest.sent, rest.end)
  }

  lemma AppendAssociates(a: seq<Reading>, b: seq<Reading>, c: seq<Reading>)
    ensures (a + b) + c == a + (b + c)
  {
  }

  lemma LastDataset(answers: Answers, views: map<string, seq<Entry>>, order: seq<string>, clock: nat,
                    whole: Poll, sent: seq<Reading>)
    requires forall k :: 0 <= k < |order| ==> order[k] in views
    requires Continues(whole, sent, DatasetsPoll(answers, views, order[|order|..], clock))
    ensures whole == Poll(sent, Done(()))
  {
  }

  lemma NextDataset(answers: Answers, views: map<string, seq<Entry>>, order: seq<string>, i: nat, clock: nat,
                    whole: Poll, sent: seq<Reading>)
    requires i < |order| && forall k :: 0 <= k < |order| ==> order[k] in views
    requires Continues(whole, sent, DatasetsPoll(answers, views, order[i..], clock))
    ensures var next := DatasetRead(answers, views[order[i]], order[i], clock);
            if next.end.Done? then Continues(whole, sent + next.sent, DatasetsPoll(answers, views, order[i + 1..], clock + 2))
            else Continues(whole, sent, next)
  {
  }

  // ---------------------------------------------------------------- data objects

  /** The values read one by one from call `clock` on; an object read while the link is down is skipped. */
  function ObjectValues(answers: Answers, entries: seq<Entry>, clock: nat): (r: seq<Option<MmsValue>>)
    ensures |r| == |entries|
    decreases |entries|
  {
    if entries == [] then []
    else if answers.isUp(clock) then
      [Some(answers.readObject(clock + 1, entries[0].dataPath, entries[0].fc))]
      + ObjectValues(answers, entries[1..], clock + 2)
    else [None] + ObjectValues(answers, entries[1..], clock + 1)
  }

  function AnsweredAmong(values: seq<Option<MmsValue>>): nat {
    if values == [] then 0 else (if values[0].Some? then 1 else 0) + AnsweredAmong(values[1..])
  }

  /** Whatever the link does, the test for object `i` is the call after one for each object before it and one more for each
      of them that was answered. If it finds the link up, the value is that read at the path and under the constraint of
      entry `i` with the next call; otherwise the object is skipped. */
  lemma {:induction false} ObjectsReadInOrder(answers: Answers, entries: seq<Entry>, clock: nat, i: nat)
    requires i < |entries|
    ensures var values := ObjectValues(answers, entries, clock);
            var test := clock + i + AnsweredAmong(values[..i]);
            values[i] == if answers.isUp(test) then Some(answers.readObject(test + 1, entries[i].dataPath, entries[i].fc))
                         else None
    decreases |entries|
  {
    if i > 0 {
      var values, next := ObjectValues(answers, entries, clock), if answers.isUp(clock) then clock + 2 else clock + 1;
      ObjectsReadInOrder(answers, entries[1..], next, i - 1);
      assert values[..i][1..] == ObjectValues(answers, entries[1..], next)[..i - 1];
    }
  }

  lemma NextObject(answers: Answers, entries: seq<Entry>, values: seq<Option<MmsValue>>, i: nat, clock: nat)
    requires i < |entries| == |values| && ObjectValues(answers, entries[i..], clock) == values[i..]
    ensures var up := answers.isUp(clock);
            && values[i] == (if up then Some(answers.readObject(clock + 1, entries[i].dataPath, entries[i].fc)) else None)
            && ObjectValues(answers, entries[i + 1..], clock + if up then 2 else 1) == values[i + 1..]
  {
  }

  // ---------------------------------------------------------------- how a poll leaves the connection

  /** How a poll of data objects leaves it: no object is read after the first whose conversion does not return. */
  function AfterObjects(answers: Answers, entries: seq<Entry>, now: Standing): Standing
    decreases |entries|
  {
    if entries == [] then now
    else if !Exported(entries[0], ObjectValues(answers, entries, now.clock)[0]).Done? then AfterRead(answers, now)
    else AfterObjects(answers, entries[1..], AfterRead(answers, now))
  }

  /** How a poll of datasets leaves it: no dataset is read after the first whose read does not return. */
  function AfterDatasets(answers: Answers, views: map<string, seq<Entry>>, order: seq<string>, now: Standing): Standing
    requires forall i :: 0 <= i < |order| ==> order[i] in views
    decreases |order|
  {
    if order == [] then now
    else if !DatasetRead(answers, views[order[0]], order[0], now.clock).end.Done? then AfterRead(answers, now)
    else AfterDatasets(answers, views, order[1..], AfterRead(answers, now))
  }

  /** Whatever the link does, a poll of data objects leaves the error code of its last read recorded, and the earlier
      code if it reads none. */
  lemma {:induction false} ObjectsRecordLastError(answers: Answers, entries: seq<Entry>, now: Standing)
    ensures var end := AfterObjects(answers, entries, now);
            Follows(answers, now, end)
    decreases |entries|
  {
    hide Follows, Exported, ObjectValues;
    if entries == [] {
      FollowsAtOnce(answers, now);
    } else {
      FollowsRead(answers, now);
      ObjectsRecordLastError(answers, entries[1..], AfterRead(answers, now));
      FollowInTurn(answers, now, AfterRead(answers, now), AfterObjects(answers, entries[1..], AfterRead(answers, now)));
    }
  }

  /** Over a link that stays up, it makes two calls for each object up to the first whose conversion does not return. */
  lemma {:induction false} ObjectsAreReadOnce(answers: Answers, entries: seq<Entry>, now: Standing)
    requires forall t: nat :: now.clock <= t < now.clock + 2 * |entries| ==> answers.isUp(t)
    ensures var n := StopsAt(entries, ObjectValues(answers, entries, now.clock));
            AfterObjects(answers, entries, now).clock == now.clock + 2 * if n < |entries| then n + 1 else n
    decreases |entries|
  {
    hide Exported;
    if entries != [] {
      var values := ObjectValues(answers, entries, now.clock);
      assert values[1..] == ObjectValues(answers, entries[1..], now.clock + 2);
      ObjectsAreReadOnce(answers, entries[1..], AfterRead(answers, now));
    }
  }

  /** The same for a poll of datasets. */
  lemma {:induction false} DatasetsRecordLastError(answers: Answers, views: map<string, seq<Entry>>, order: seq<string>,
                                                   now: Standing)
    requires forall i :: 0 <= i < |order| ==> order[i] in views
    ensures var end := AfterDatasets(answers, views, order, now);
            Follows(answers, now, end)
    decreases |order|
  {
    hide Follows, DatasetRead;
    if order == [] {
      FollowsAtOnce(answers, now);
    } else {
      FollowsRead(answers, now);
      DatasetsRecordLastError(answers, views, order[1..], AfterRead(answers, now));
      FollowInTurn(answers, now, AfterRead(answers, now),
                        AfterDatasets(answers, views, order[1..], AfterRead(answers, now)));
    }
  }

  // ---------------------------------------------------------------- when a poll is undefined

  /** The conversion of this value gets to a degenerate `mag` structure. */
  predicate ExportIsBad(e: Entry, value: Option<MmsValue>) {
    value.Some? && !value.value.Missing? && e.tree.Some? && ReachesBadMag(value.value, e.tree.value)
  }

  /** The value is skipped, null, or fits the name tree. */
  predicate ExportReturns(e: Entry, value: Option<MmsValue>) {
    value.None? || value.value.Missing? || (e.tree.Some? && Matches(value.value, e.tree.value))
  }

  lemma ExportedExactly(e: Entry, value: Option<MmsValue>)
    ensures Exported(e, value).Undefined? <==> ExportIsBad(e, value)
    ensures Exported(e, value).Done? <==> ExportReturns(e, value)
  {
    if value.Some? && !value.value.Missing? && e.tree.Some? {
      UndefinedExactly(value.value, e.tree.value);
      ConvertsIffMatches(value.value, e.tree.value);
    }
  }

  /** It gives the reading of a datapoint exactly if the value converts to it, under the name of the datapoint; nothing
      if the value is skipped or converts to null; and throws what the conversion throws. */
  lemma ExportedValue(e: Entry, value: Option<MmsValue>, d: Tree, error: MmsError)
    ensures Exported(e, value) == Done([Reading(d.name, d)]) <==>
              value.Some? && ConvertObject(value.value, e.tree, e.datapointType) == Done(Some(d))
    ensures Exported(e, value) == Done([]) <==>
              value.None? || ConvertObject(value.value, e.tree, e.datapointType) == Done(None)
    ensures Exported(e, value) == Throws(error) <==>
              value.Some? && ConvertObject(value.value, e.tree, e.datapointType) == Throws(error)
  {
  }

  /** Some value is degenerate, and those before it return. */
  predicate PollIsBad(entries: seq<Entry>, values: seq<Option<MmsValue>>)
    requires |entries| == |values|
  {
    exists i :: && 0 <= i < |entries| && ExportIsBad(entries[i], values[i])
                && forall j :: 0 <= j < i ==> ExportReturns(entries[j], values[j])
  }

  predicate PollReturns(entries: seq<Entry>, values: seq<Option<MmsValue>>)
    requires |entries| == |values|
  {
    forall i :: 0 <= i < |entries| ==> ExportReturns(entries[i], values[i])
  }

  /** A poll throws exactly what the first value that does not return throws. */
  lemma PollThrowsExactly(entries: seq<Entry>, values: seq<Option<MmsValue>>, error: MmsError)
    requires |entries| == |values|
    ensures PollOf(entries, values).end == Throws(error) <==>
              exists i :: && 0 <= i < |entries| && Exported(entries[i], values[i]) == Throws(error)
                          && forall j :: 0 <= j < i ==> ExportReturns(entries[j], values[j])
  {
    hide Exported, ExportReturns;
    forall i | 0 <= i < |entries|
      ensures Exported(entries[i], values[i]).Done? <==> ExportReturns(entries[i], values[i])
    {
      ExportedExactly(entries[i], values[i]);
    }
  }

  /** A poll is undefined exactly if its values lead to a degenerate `mag` structure, and returns exactly if all of them
      return. */
  lemma PollUndefinedExactly(entries: seq<Entry>, values: seq<Option<MmsValue>>)
    requires |entries| == |values|
    ensures PollOf(entries, values).end.Undefined? <==> PollIsBad(entries, values)
    ensures PollOf(entries, values).end.Done? <==> PollReturns(entries, values)
  {
    hide Exported, ExportIsBad, ExportReturns;
    forall i | 0 <= i < |entries|
      ensures Exported(entries[i], values[i]).Undefined? <==> ExportIsBad(entries[i], values[i])
      ensures Exported(entries[i], values[i]).Done? <==> ExportReturns(entries[i], values[i])
    {
      ExportedExactly(entries[i], values[i]);
    }
    var n := StopsAt(entries, values);
    assert forall j :: 0 <= j < n ==> ExportReturns(entries[j], values[j]);
  }

  /** The link is down when the dataset is read, or what is read leads to a degenerate `mag` structure. */
  predicate DatasetReadIsBad(answers: Answers, entries: seq<Entry>, ref: string, clock: nat) {
    var value := answers.readDataset(clock + 1, ref);
    !answers.isUp(clock) || (IsDatasetOf(value, entries) && PollIsBad(entries, DatasetValues(entries, value.elems)))
  }

  predicate DatasetReadReturns(answers: Answers, entries: seq<Entry>, ref: string, clock: nat) {
    var value := answers.readDataset(clock + 1, ref);
    answers.isUp(clock) && IsDatasetOf(value, entries) && PollReturns(entries, DatasetValues(entries, value.elems))
  }

  lemma DatasetReadUndefinedExactly(answers: Answers, entries: seq<Entry>, ref: string, clock: nat)
    ensures DatasetRead(answers, entries, ref, clock).end.Undefined? <==> DatasetReadIsBad(answers, entries, ref, clock)
    ensures DatasetRead(answers, entries, ref, clock).end.Done? <==> DatasetReadReturns(answers, entries, ref, clock)
  {
    hide PollOf, PollIsBad, PollReturns;
    var value := answers.readDataset(clock + 1, ref);
    if IsDatasetOf(value, entries) {
      PollUndefinedExactly(entries, DatasetValues(entries, value.elems));
    }
  }

  /** Reading some dataset is bad, and those before it return. */
  predicate DatasetsPollIsBad(answers: Answers, views: map<string, seq<Entry>>, order: seq<string>, clock: nat)
    requires forall i :: 0 <= i < |order| ==> order[i] in views
  {
    exists i :: && 0 <= i < |order| && DatasetReadIsBad(answers, views[order[i]], order[i], clock + 2 * i)
                && forall j :: 0 <= j < i ==> DatasetReadReturns(answers, views[order[j]], order[j], clock + 2 * j)
  }

  lemma LaterDatasetIsBad(answers: Answers, views: map<string, seq<Entry>>, order: seq<string>, clock: nat)
    requires order != [] && forall i :: 0 <= i < |order| ==> order[i] in views
    requires DatasetsPollIsBad(answers, views, order[1..], clock + 2)
    requires DatasetReadReturns(answers, views[order[0]], order[0], clock)
    ensures DatasetsPollIsBad(answers, views, order, clock)
  {
    hide DatasetReadIsBad, DatasetReadReturns;
    var rest := order[1..];
    var i :| && 0 <= i < |rest| && DatasetReadIsBad(answers, views[rest[i]], rest[i], clock + 2 + 2 * i)
             && forall j :: 0 <= j < i ==> DatasetReadReturns(answers, views[rest[j]], rest[j], clock + 2 + 2 * j);
    assert DatasetReadIsBad(answers, views[order[i + 1]], order[i + 1], clock + 2 * (i + 1));
    forall j | 0 <= j < i + 1
      ensures DatasetReadReturns(answers, views[order[j]], order[j], clock + 2 * j)
    {
      if j > 0 {
        assert DatasetReadReturns(answers, views[rest[j - 1]], rest[j - 1], clock + 2 + 2 * (j - 1));
      }
    }
  }

  lemma EarlierDatasetIsBad(answers: Answers, views: map<string, seq<Entry>>, order: seq<string>, clock: nat, i: nat)
    requires forall i :: 0 <= i < |order| ==> order[i] in views
    requires 0 < i < |order| && DatasetReadIsBad(answers, views[order[i]], order[i], clock + 2 * i)
    requires forall j :: 0 <= j < i ==> DatasetReadReturns(answers, views[order[j]], order[j], clock + 2 * j)
    ensures DatasetsPollIsBad(answers, views, order[1..], clock + 2)
    ensures DatasetReadReturns(answers, views[order[0]], order[0], clock)
  {
    hide DatasetReadIsBad, DatasetReadReturns;
    var rest := order[1..];
    assert DatasetReadReturns(answers, views[order[0]], order[0], clock + 2 * 0);
    assert DatasetReadIsBad(answers, views[rest[i - 1]], rest[i - 1], clock + 2 + 2 * (i - 1));
    forall j | 0 <= j < i - 1
      ensures DatasetReadReturns(answers, views[rest[j]], rest[j], clock + 2 + 2 * j)
    {
      assert DatasetReadReturns(answers, views[order[j + 1]], order[j + 1], clock + 2 * (j + 1));
    }
  }

  lemma FirstDatasetDecides(answers: Answers, views: map<string, seq<Entry>>, order: seq<string>, clock: nat)
    requires order != [] && forall i :: 0 <= i < |order| ==> order[i] in views
    ensures forall i :: 0 <= i < |order| - 1 ==> order[1..][i] in views
    ensures DatasetsPollIsBad(answers, views, order, clock) <==>
              || DatasetReadIsBad(answers, views[order[0]], order[0], clock)
              || (DatasetReadReturns(answers, views[order[0]], order[0], clock)
                  && DatasetsPollIsBad(answers, views, order[1..], clock + 2))
  {
    hide DatasetReadIsBad, DatasetReadReturns;
    if DatasetReadIsBad(answers, views[order[0]], order[0], clock) {
      assert DatasetReadIsBad(answers, views[order[0]], order[0], clock + 2 * 0);
    } else if DatasetsPollIsBad(answers, views, order, clock) {
      var i :| && 0 <= i < |order| && DatasetReadIsBad(answers, views[order[i]], order[i], clock + 2 * i)
               && forall j :: 0 <= j < i ==> DatasetReadReturns(answers, views[order[j]], order[j], clock + 2 * j);
      EarlierDatasetIsBad(answers, views, order, clock, i);
    } else if DatasetReadReturns(answers, views[order[0]], order[0], clock)
              && DatasetsPollIsBad(answers, views, order[1..], clock + 2) {
      LaterDatasetIsBad(answers, views, order, clock);
    }
  }

  /** A poll of datasets is undefined exactly if it gets to one that is read over a link found down, or whose value
      leads to a degenerate `mag` structure. */
  lemma {:induction false} DatasetsPollUndefinedExactly(answers: Answers, views: map<string, seq<Entry>>,
                                                        order: seq<string>, clock: nat)
    requires forall i :: 0 <= i < |order| ==> order[i] in views
    ensures DatasetsPoll(answers, views, order, clock).end.Undefined? <==> DatasetsPollIsBad(answers, views, order, clock)
    decreases |order|
  {
    if order != [] {
      hide DatasetRead, DatasetReadIsBad, DatasetReadReturns, DatasetsPollIsBad;
      DatasetReadUndefinedExactly(answers, views[order[0]], order[0], clock);
      FirstDatasetDecides(answers, views, order, clock);
      DatasetsPollUndefinedExactly(answers, views, order[1..], clock + 2);
    }
  }

  // ---------------------------------------------------------------- the names of what is sent

  /** `r` is what this value of the entry is exported as. No node of it, at any depth, has a name that is a key of the
      mapping, and its asset name is the mapped label unless the label is `mag`. */
  predicate NamedFor(r: Reading, e: Entry, value: Option<MmsValue>) {
    && Exported(e, value) == Done([r])
    && r.assetName == r.point.name && NoMappedName(r.point)
    && (e.dpLabel != MAG ==> r.assetName == Mapped(e.dpLabel))
  }

  predicate NamedAmong(r: Reading, entries: seq<Entry>, values: seq<Option<MmsValue>>)
    requires |entries| == |values|
  {
    exists i :: 0 <= i < |entries| && NamedFor(r, entries[i], values[i])
  }

  lemma ReadingNames(e: Entry, value: Option<MmsValue>)
    requires e.tree.Some? ==> e.tree.value.mmsName == e.dpLabel
    requires Exported(e, value).Done? && Exported(e, value).value != []
    ensures NamedFor(Exported(e, value).value[0], e, value)
  {
    ObjectNames(value.value, e.tree.value, e.datapointType);
  }

  lemma {:induction false} ReadingsNames(entries: seq<Entry>, values: seq<Option<MmsValue>>, n: nat)
    requires n <= |entries| == |values| && RootsAreLabels(entries)
    requires forall i :: 0 <= i < n ==> Exported(entries[i], values[i]).Done?
    ensures forall k :: 0 <= k < |ReadingsOf(entries, values, n)| ==>
              NamedAmong(ReadingsOf(entries, values, n)[k], entries, values)
  {
    hide NamedFor, Exported;
    if n > 0 {
      ReadingsNames(entries, values, n - 1);
      LastReadingNames(entries, values, n);
    }
  }

  lemma LastReadingNames(entries: seq<Entry>, values: seq<Option<MmsValue>>, n: nat)
    requires 0 < n <= |entries| == |values| && RootsAreLabels(entries)
    requires Exported(entries[n - 1], values[n - 1]).Done?
    ensures forall r :: r in Exported(entries[n - 1], values[n - 1]).value ==> NamedAmong(r, entries, values)
  {
    if Exported(entries[n - 1], values[n - 1]).value != [] {
      ReadingNames(entries[n - 1], values[n - 1]);
    }
  }

  /** Every reading of a poll is named for the entry that it comes from, even if a later conversion throws. */
  lemma PollNames(entries: seq<Entry>, values: seq<Option<MmsValue>>)
    requires |entries| == |values| && RootsAreLabels(entries)
    ensures forall k :: 0 <= k < |PollOf(entries, values).sent| ==>
              NamedAmong(PollOf(entries, values).sent[k], entries, values)
  {
    ReadingsNames(entries, values, StopsAt(entries, values));
  }

  /** `r` comes from this value of the dataset, and is named for the member that it comes from. */
  predicate NamedInDataset(r: Reading, entries: seq<Entry>, value: MmsValue) {
    value.Composite? && |value.elems| == |entries| && NamedAmong(r, entries, DatasetValues(entries, value.elems))
  }

  predicate NamedInDatasets(r: Reading, answers: Answers, views: map<string, seq<Entry>>, order: seq<string>, clock: nat)
    requires forall i :: 0 <= i < |order| ==> order[i] in views
  {
    exists j :: 0 <= j < |order| && NamedInDataset(r, views[order[j]], answers.readDataset(clock + 2 * j + 1, order[j]))
  }

  lemma DatasetReadNames(answers: Answers, entries: seq<Entry>, ref: string, clock: nat)
    requires RootsAreLabels(entries)
    ensures forall k :: 0 <= k < |DatasetRead(answers, entries, ref, clock).sent| ==>
              NamedInDataset(DatasetRead(answers, entries, ref, clock).sent[k], entries, answers.readDataset(clock + 1, ref))
  {
    var value := answers.readDataset(clock + 1, ref);
    if value.Composite? && |value.elems| == |entries| {
      PollNames(entries, DatasetValues(entries, value.elems));
    }
  }

  /** Every reading of a poll of datasets is named for the member of the dataset that it comes from. */
  lemma {:induction false} DatasetsPollNames(answers: Answers, views: map<string, seq<Entry>>, order: seq<string>, clock: nat)
    requires forall i :: 0 <= i < |order| ==> order[i] in views && RootsAreLabels(views[order[i]])
    ensures forall r :: r in DatasetsPoll(answers, views, order, clock).sent ==>
              NamedInDatasets(r, answers, views, order, clock)
    decreases |order|
  {
    hide DatasetRead, NamedInDataset;
    if order != [] {
      var first := DatasetRead(answers, views[order[0]], order[0], clock);
      DatasetReadNames(answers, views[order[0]], order[0], clock);
      DatasetsPollNames(answers, views, order[1..], clock + 2);
      forall r | r in DatasetsPoll(answers, views, order, clock).sent
        ensures NamedInDatasets(r, answers, views, order, clock)
      {
        if r in first.sent {
          assert NamedInDataset(r, views[order[0]], answers.readDataset(clock + 2 * 0 + 1, order[0]));
        } else {
          var j :| && 0 <= j < |order| - 1
                   && NamedInDataset(r, views[order[1..][j]], answers.readDataset(clock + 2 + 2 * j + 1, order[1..][j]));
          assert NamedInDataset(r, views[order[j + 1]], answers.readDataset(clock + 2 * (j + 1) + 1, order[j + 1]));
        }
      }
    }
  }

  // ---------------------------------------------------------------- the receiver of the readings

  /** The plugin's ingestion of readings, and what went through its callback. */
  class Gateway {
    var hasCallback: bool
    /** The pointer that goes with every call of the callback. */
    var data: nat
    ghost var delivered: seq<Reading>

    constructor ()
      ensures !hasCallback && data == 0 && delivered == []
    {
      hasCallback, data, delivered := false, 0, [];
    }

    /** A null callback unregisters. */
    method RegisterIngest(data: nat, callbackGiven: bool)
      modifies this`hasCallback, this`data
      ensures hasCallback == callbackGiven && this.data == data
    {
      hasCallback, this.data := callbackGiven, data;
    }

    /** The callback takes over what it is given; without one, the datapoint stays allocated. */
    method Ingest(ghost heap: Allocations, point: Datapoint, readingAssetName: string, ghost t: Tree)
      requires Represents(point, Some(t))
      modifies this`delivered, heap
      ensures delivered == old(delivered) + if hasCallback then [Reading(readingAssetName, t)] else []
      ensures heap.live == old(heap.live) - if hasCallback then point.Repr else {}
    {
      if hasCallback {
        delivered := delivered + [Reading(readingAssetName, t)];
        heap.live := heap.live - point.Repr;
      }
    }
  }
}
