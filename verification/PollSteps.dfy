/** A poll of a client as turns of the reader of the step system: what the poll sends, how it ends and what it leaves
    recorded is what a run of the reader and the link counts. */
module PollSteps {
  import opened Outcomes
  import opened Mms
  import opened Connection
  import opened Selection
  import opened Configuration
  import opened Readings
  import opened Client
  import Lifecycle

  // ---------------------------------------------------------------- turns

  const PLAIN := Lifecycle.Choice(false, false, false, false, 0, false, false)

  /** The link is found in this state. */
  function LinkTurn(up: bool): Lifecycle.Event {
    Lifecycle.Event(Lifecycle.Link, PLAIN.(up := up))
  }

  function PlainTurn(): Lifecycle.Event {
    Lifecycle.Event(Lifecycle.Reader, PLAIN)
  }

  /** So many objects or readings come, and this error code. */
  function ReadTurn(size: nat, error: int): Lifecycle.Event {
    Lifecycle.Event(Lifecycle.Reader, PLAIN.(size := size, fault := error != IED_ERROR_OK))
  }

  /** The conversions of a read have ended so. */
  function EndTurn(end: Outcome<()>): Lifecycle.Event {
    Lifecycle.Event(Lifecycle.Reader, PLAIN.(throws := end.Throws?, degenerate := end.Undefined?))
  }

  function PlainTurns(n: nat): seq<Lifecycle.Event> {
    if n == 0 then [] else [PlainTurn()] + PlainTurns(n - 1)
  }

  /** A read over a link that is up, and the readings of what it gives. */
  function ReadTurns(poll: Poll, error: int): seq<Lifecycle.Event> {
    [LinkTurn(true), ReadTurn(|poll.sent|, error)] + (PlainTurns(|poll.sent|) + [EndTurn(poll.end)])
  }

  /** A read over a link that is down. */
  function SkippedTurns(): seq<Lifecycle.Event> {
    [LinkTurn(false), PlainTurn()]
  }

  /** What the value read for one entry sends. */
  function ExportPoll(e: Entry, value: Option<MmsValue>): Poll {
    match Exported(e, value)
    case Done(sent) => Poll(sent, Done(()))
    case Throws(error) => Poll([], Throws(error))
    case Undefined => Poll([], Undefined)
  }

  function ObjectTurns(answers: Answers, entries: seq<Entry>, clock: nat): seq<Lifecycle.Event>
    decreases |entries|
  {
    if entries == [] then [PlainTurn()]
    else if !answers.isUp(clock) then SkippedTurns() + ObjectTurns(answers, entries[1..], clock + 1)
    else
      var own := ExportPoll(entries[0], ObjectValues(answers, entries, clock)[0]);
      ReadTurns(own, answers.error(clock + 1))
      + if own.end.Done? then ObjectTurns(answers, entries[1..], clock + 2) else []
  }

  function DatasetTurns(answers: Answers, views: map<string, seq<Entry>>, order: seq<string>, clock: nat)
    : seq<Lifecycle.Event>
    requires forall i :: 0 <= i < |order| ==> order[i] in views
    decreases |order|
  {
    if order == [] then [PlainTurn()]
    else if !answers.isUp(clock) then SkippedTurns()
    else
      var own := DatasetRead(answers, views[order[0]], order[0], clock);
      ReadTurns(own, answers.error(clock + 1))
      + if own.end.Done? then DatasetTurns(answers, views, order[1..], clock + 2) else []
  }

  function ModeTurns(mode: ReadMode, answers: Answers, entries: seq<Entry>, views: map<string, seq<Entry>>,
                     order: seq<string>, clock: nat): seq<Lifecycle.Event>
    requires forall i :: 0 <= i < |order| ==> order[i] in views
  {
    match mode
    case DATASET_READING => DatasetTurns(answers, views, order, clock)
    case DO_READING => ObjectTurns(answers, entries, clock)
  }

  function TestTurns(size: nat, error: int): seq<Lifecycle.Event> {
    [LinkTurn(true), PlainTurn()] + [ReadTurn(size, error)]
  }

  /** A whole poll that finds the link up: the two tests, and the reads unless an error is recorded. */
  function PollTurns(mode: ReadMode, answers: Answers, entries: seq<Entry>, views: map<string, seq<Entry>>,
                     order: seq<string>, now: Standing): seq<Lifecycle.Event>
    requires forall i :: 0 <= i < |order| ==> order[i] in views
  {
    TestTurns(if mode.DATASET_READING? then |order| else |entries|, now.error)
    + if now.error != IED_ERROR_OK then [PlainTurn()]
      else ModeTurns(mode, answers, entries, views, order, now.clock + 1)
  }

  // ---------------------------------------------------------------- runs of turns

  lemma {:induction false} RunJoined(b: Lifecycle.Bounds, s: Lifecycle.State, first: seq<Lifecycle.Event>,
                                     rest: seq<Lifecycle.Event>)
    ensures Lifecycle.Run(b, s, first + rest) == Lifecycle.Run(b, Lifecycle.Run(b, s, first), rest)
    decreases |first|
  {
    hide Lifecycle.Step;
    if first == [] {
      assert [] + rest == rest;
    } else {
      assert (first + rest)[1..] == first[1..] + rest;
      RunJoined(b, Lifecycle.Step(b, s, first[0]), first[1..], rest);
    }
  }

  lemma {:induction false} SendingTurns(b: Lifecycle.Bounds, s: Lifecycle.State, n: nat)
    requires s.reader.Sending? && s.reader.readings == n
    ensures Lifecycle.Run(b, s, PlainTurns(n))
              == s.(reader := Lifecycle.Sending(0, s.reader.objects),
                    effects := s.effects.(sentCount := s.effects.sentCount + n))
    decreases n
  {
    if n > 0 {
      assert PlainTurns(n)[1..] == PlainTurns(n - 1);
      SendingTurns(b, Lifecycle.Step(b, s, PlainTurn()), n - 1);
    }
  }

  lemma OneTurn(b: Lifecycle.Bounds, s: Lifecycle.State, e: Lifecycle.Event)
    ensures Lifecycle.Run(b, s, [e]) == Lifecycle.Step(b, s, e)
  {
    assert [e][1..] == [];
  }

  lemma TwoTurns(b: Lifecycle.Bounds, s: Lifecycle.State, d: Lifecycle.Event, e: Lifecycle.Event)
    ensures Lifecycle.Run(b, s, [d, e]) == Lifecycle.Step(b, Lifecycle.Step(b, s, d), e)
  {
    hide Lifecycle.Step;
    assert [d, e][1..] == [e];
    OneTurn(b, Lifecycle.Step(b, s, d), e);
  }

  /** `s` after a read that got an answer, whose readings are about to be sent. */
  function AfterAnswer(s: Lifecycle.State, readings: nat, error: int): Lifecycle.State
    requires s.reader.Reading? && s.reader.objects > 0 && s.connection.Live?
  {
    s.(connection := Lifecycle.Live(s.connection.id, true, error != IED_ERROR_OK),
       effects := s.effects.(readCount := s.effects.readCount + 1),
       reader := Lifecycle.Sending(readings, s.reader.objects - 1))
  }

  lemma AnswerTurns(b: Lifecycle.Bounds, s: Lifecycle.State, readings: nat, error: int)
    requires s.reader.Reading? && s.reader.objects > 0 && s.connection.Live? && readings <= b.readings
    ensures Lifecycle.Run(b, s, [LinkTurn(true), ReadTurn(readings, error)]) == AfterAnswer(s, readings, error)
  {
    hide Lifecycle.InitStep;
    TwoTurns(b, s, LinkTurn(true), ReadTurn(readings, error));
  }

  lemma EndOfRead(b: Lifecycle.Bounds, s: Lifecycle.State, end: Outcome<()>)
    requires s.reader.Sending? && s.reader.readings == 0
    ensures Lifecycle.Run(b, s, [EndTurn(end)])
              == s.(effects := s.effects.(undefined := s.effects.undefined || end.Undefined?),
                    reader := if end.Done? then Lifecycle.Reading(s.reader.objects) else Lifecycle.Resting)
  {
    hide Lifecycle.InitStep;
    OneTurn(b, s, EndTurn(end));
  }

  /** One read: it is counted, its readings are sent, and its error code is recorded. */
  lemma ReadIsARun(b: Lifecycle.Bounds, s: Lifecycle.State, poll: Poll, error: int)
    requires s.reader.Reading? && s.reader.objects > 0 && s.connection.Live? && |poll.sent| <= b.readings
    ensures Lifecycle.Run(b, s, ReadTurns(poll, error))
              == s.(connection := Lifecycle.Live(s.connection.id, true, error != IED_ERROR_OK),
                    effects := Lifecycle.Effects(s.effects.readCount + 1, s.effects.sentCount + |poll.sent|,
                                                 s.effects.undefined || poll.end.Undefined?),
                    reader := if poll.end.Done? then Lifecycle.Reading(s.reader.objects - 1) else Lifecycle.Resting)
  {
    hide Lifecycle.Step, Lifecycle.Run;
    var n := |poll.sent|;
    AnswerTurns(b, s, n, error);
    var read := AfterAnswer(s, n, error);
    SendingTurns(b, read, n);
    EndOfRead(b, Lifecycle.Run(b, read, PlainTurns(n)), poll.end);
    RunJoined(b, s, [LinkTurn(true), ReadTurn(n, error)], PlainTurns(n) + [EndTurn(poll.end)]);
    RunJoined(b, read, PlainTurns(n), [EndTurn(poll.end)]);
  }

  // ---------------------------------------------------------------- polls

  /** From `s` to `t`: as many readings were sent as the poll sends, the run is undefined exactly if the poll is, and
      otherwise the reader rests; the same connection has recorded an error exactly if the poll leaves one. */
  predicate Simulates(s: Lifecycle.State, t: Lifecycle.State, poll: Poll, end: Standing) {
    && t == s.(reader := t.reader, connection := t.connection, effects := t.effects)
    && t.effects.sentCount == s.effects.sentCount + |poll.sent|
    && (t.effects.undefined <==> s.effects.undefined || poll.end.Undefined?)
    && (!poll.end.Undefined? ==> t.reader.Resting?)
    && t.connection.Live? && s.connection.Live? && t.connection.id == s.connection.id
    && (t.connection.fault <==> end.error != IED_ERROR_OK)
  }

  /** The step system stands before the reads of so many objects, as the connection of the client does. */
  predicate StandsBefore(s: Lifecycle.State, objects: nat, now: Standing) {
    s.reader == Lifecycle.Reading(objects) && s.connection.Live? && (s.connection.fault <==> now.error != IED_ERROR_OK)
  }

  /** A read over a link that is down. */
  lemma SkipIsARun(b: Lifecycle.Bounds, s: Lifecycle.State)
    requires s.reader.Reading? && s.reader.objects > 0 && s.connection.Live?
    ensures Lifecycle.Run(b, s, SkippedTurns())
              == s.(connection := s.connection.(up := false),
                    effects := s.effects.(undefined := s.effects.undefined || b.byDataset),
                    reader := Lifecycle.Reading(s.reader.objects - 1))
  {
    hide Lifecycle.InitStep;
    TwoTurns(b, s, LinkTurn(false), PlainTurn());
  }

  lemma NoneLeftIsARun(b: Lifecycle.Bounds, s: Lifecycle.State)
    requires s.reader == Lifecycle.Reading(0)
    ensures Lifecycle.Run(b, s, [PlainTurn()]) == s.(reader := Lifecycle.Resting)
  {
    hide Lifecycle.InitStep;
    OneTurn(b, s, PlainTurn());
  }

  lemma OneExport(e: Entry, value: Option<MmsValue>)
    ensures |ExportPoll(e, value).sent| <= 1 && ExportPoll(e, None) == Poll([], Done(()))
  {
    hide ConvertObject;
  }

  lemma NoEntries()
    ensures PollOf([], []) == Poll([], Done(()))
  {
  }

  /** The first entry decides, or is followed by the others. */
  lemma PollOfFirst(entries: seq<Entry>, values: seq<Option<MmsValue>>)
    requires |entries| == |values| && entries != []
    ensures var own, rest := ExportPoll(entries[0], values[0]), PollOf(entries[1..], values[1..]);
            PollOf(entries, values) == if own.end.Done? then Poll(own.sent + rest.sent, rest.end) else own
  {
    hide Exported;
    var n := StopsAt(entries, values);
    if n > 0 {
      ReadingsOfSplit(entries, values, n);
      assert Exported(entries[0], values[0]).Done?;
      StopsAtFirst(entries[1..], values[1..], n - 1);
    }
  }

  /** `s` after a read that returned these readings, or was skipped. */
  function AfterTurns(s: Lifecycle.State, up: bool, sent: nat, now: Standing): Lifecycle.State
    requires s.reader.Reading? && s.reader.objects > 0 && s.connection.Live?
  {
    s.(connection := Lifecycle.Live(s.connection.id, up, now.error != IED_ERROR_OK),
       effects := Lifecycle.Effects(s.effects.readCount + if up then 1 else 0, s.effects.sentCount + sent,
                                    s.effects.undefined),
       reader := Lifecycle.Reading(s.reader.objects - 1))
  }

  lemma SimulatesNext(s: Lifecycle.State, t: Lifecycle.State, up: bool, sent: seq<Reading>, now: Standing, rest: Poll,
                      end: Standing)
    requires s.reader.Reading? && s.reader.objects > 0 && s.connection.Live?
    requires Simulates(AfterTurns(s, up, |sent|, now), t, rest, end)
    ensures Simulates(s, t, Poll(sent + rest.sent, rest.end), end)
  {
  }

  lemma SimulatesLast(b: Lifecycle.Bounds, s: Lifecycle.State, own: Poll, error: int, end: Standing)
    requires s.reader.Reading? && s.reader.objects > 0 && s.connection.Live? && |own.sent| <= b.readings
    requires !own.end.Done? && end.error == error
    ensures Simulates(s, Lifecycle.Run(b, s, ReadTurns(own, error)), own, end)
  {
    hide Lifecycle.Run;
    ReadIsARun(b, s, own, error);
  }

  lemma NextTurns(b: Lifecycle.Bounds, s: Lifecycle.State, own: Poll, now: Standing, turns: seq<Lifecycle.Event>)
    requires s.reader.Reading? && s.reader.objects > 0 && s.connection.Live? && |own.sent| <= b.readings && own.end.Done?
    ensures Lifecycle.Run(b, s, ReadTurns(own, now.error) + turns)
              == Lifecycle.Run(b, AfterTurns(s, true, |own.sent|, now), turns)
  {
    hide Lifecycle.Run;
    ReadIsARun(b, s, own, now.error);
    RunJoined(b, s, ReadTurns(own, now.error), turns);
  }

  lemma SkipTurns(b: Lifecycle.Bounds, s: Lifecycle.State, objects: nat, now: Standing, turns: seq<Lifecycle.Event>)
    requires StandsBefore(s, objects, now) && objects > 0 && !b.byDataset
    ensures Lifecycle.Run(b, s, SkippedTurns() + turns)
              == Lifecycle.Run(b, AfterTurns(s, false, 0, now), turns)
  {
    hide Lifecycle.Run;
    SkipIsARun(b, s);
    RunJoined(b, s, SkippedTurns(), turns);
  }

  /** The first object, when its conversion returns, is followed by the others. */
  lemma NextObjectIsARun(b: Lifecycle.Bounds, s: Lifecycle.State, own: Poll, turns: seq<Lifecycle.Event>, up: bool,
                         now: Standing, later: Standing, rest: Poll, end: Standing)
    requires s.reader.Reading? && StandsBefore(s, s.reader.objects, now) && s.reader.objects > 0 && !b.byDataset
    requires own.end.Done? && |own.sent| <= b.readings && (!up ==> own.sent == [] && later.error == now.error)
    requires Simulates(AfterTurns(s, up, |own.sent|, later),
                       Lifecycle.Run(b, AfterTurns(s, up, |own.sent|, later), turns), rest, end)
    ensures Simulates(s, Lifecycle.Run(b, s, (if up then ReadTurns(own, later.error) else SkippedTurns()) + turns),
                      Poll(own.sent + rest.sent, rest.end), end)
  {
    hide Lifecycle.Run, Simulates, ReadTurns;
    var next := AfterTurns(s, up, |own.sent|, later);
    SimulatesNext(s, Lifecycle.Run(b, next, turns), up, own.sent, later, rest, end);
    if up {
      NextTurns(b, s, own, later, turns);
    } else {
      SkipTurns(b, s, s.reader.objects, now, turns);
    }
  }

  lemma {:induction false} ObjectsAreARun(b: Lifecycle.Bounds, s: Lifecycle.State, answers: Answers, entries: seq<Entry>,
                                          now: Standing)
    requires StandsBefore(s, |entries|, now) && !b.byDataset && b.readings >= 1
    ensures Simulates(s, Lifecycle.Run(b, s, ObjectTurns(answers, entries, now.clock)),
                      PollOf(entries, ObjectValues(answers, entries, now.clock)), AfterObjects(answers, entries, now))
    decreases |entries|
  {
    hide Lifecycle.Run, Exported, PollOf;
    if entries == [] {
      NoneLeftIsARun(b, s);
      NoEntries();
    } else {
      hide Simulates, ReadTurns, SkippedTurns;
      var values := ObjectValues(answers, entries, now.clock);
      var own, later := ExportPoll(entries[0], values[0]), AfterRead(answers, now);
      OneExport(entries[0], values[0]);
      PollOfFirst(entries, values);
      if own.end.Done? {
        var up, next := answers.isUp(now.clock), AfterTurns(s, answers.isUp(now.clock), |own.sent|, later);
        ObjectsAreARun(b, next, answers, entries[1..], later);
        NextObjectIsARun(b, s, own, ObjectTurns(answers, entries[1..], later.clock), up, now, later,
                         PollOf(entries[1..], ObjectValues(answers, entries[1..], later.clock)),
                         AfterObjects(answers, entries[1..], later));
      } else {
        SimulatesLast(b, s, own, answers.error(now.clock + 1), later);
        assert ObjectTurns(answers, entries, now.clock) == ReadTurns(own, answers.error(now.clock + 1));
      }
    }
  }

  lemma NoDatasets(b: Lifecycle.Bounds, s: Lifecycle.State, answers: Answers, views: map<string, seq<Entry>>, now: Standing)
    requires StandsBefore(s, 0, now)
    ensures Simulates(s, Lifecycle.Run(b, s, DatasetTurns(answers, views, [], now.clock)),
                      DatasetsPoll(answers, views, [], now.clock), AfterDatasets(answers, views, [], now))
  {
    hide Lifecycle.Run;
    NoneLeftIsARun(b, s);
  }

  /** A dataset that is read over a link found down. */
  lemma MissingDataset(b: Lifecycle.Bounds, s: Lifecycle.State, answers: Answers, views: map<string, seq<Entry>>,
                       order: seq<string>, now: Standing)
    requires order != [] && forall i :: 0 <= i < |order| ==> order[i] in views
    requires StandsBefore(s, |order|, now) && b.byDataset && !answers.isUp(now.clock)
    ensures Simulates(s, Lifecycle.Run(b, s, DatasetTurns(answers, views, order, now.clock)),
                      DatasetsPoll(answers, views, order, now.clock), AfterDatasets(answers, views, order, now))
  {
    hide Lifecycle.Run, DatasetPoll;
    SkipIsARun(b, s);
  }

  lemma {:induction false} DatasetsAreARun(b: Lifecycle.Bounds, s: Lifecycle.State, answers: Answers,
                                           views: map<string, seq<Entry>>, order: seq<string>, now: Standing)
    requires forall i :: 0 <= i < |order| ==> order[i] in views && |views[order[i]]| <= b.readings
    requires StandsBefore(s, |order|, now) && b.byDataset
    ensures Simulates(s, Lifecycle.Run(b, s, DatasetTurns(answers, views, order, now.clock)),
                      DatasetsPoll(answers, views, order, now.clock), AfterDatasets(answers, views, order, now))
    decreases |order|
  {
    hide Lifecycle.Run, DatasetRead, Simulates, ReadTurns;
    if order == [] {
      NoDatasets(b, s, answers, views, now);
    } else if answers.isUp(now.clock) {
      var own, later := DatasetRead(answers, views[order[0]], order[0], now.clock), AfterRead(answers, now);
      DatasetSends(answers, views[order[0]], order[0], now.clock);
      if own.end.Done? {
        var rest := DatasetsPoll(answers, views, order[1..], later.clock);
        var turns := DatasetTurns(answers, views, order[1..], later.clock);
        var next := AfterTurns(s, true, |own.sent|, later);
        DatasetsAreARun(b, next, answers, views, order[1..], later);
        SimulatesNext(s, Lifecycle.Run(b, next, turns), true, own.sent, later, rest,
                      AfterDatasets(answers, views, order[1..], later));
        NextTurns(b, s, own, later, turns);
      } else {
        SimulatesLast(b, s, own, later.error, later);
        assert DatasetTurns(answers, views, order, now.clock) == ReadTurns(own, later.error);
      }
    } else {
      MissingDataset(b, s, answers, views, order, now);
    }
  }

  lemma {:induction false} AtMostOneEach(entries: seq<Entry>, values: seq<Option<MmsValue>>, n: nat)
    requires n <= |entries| == |values| && forall i :: 0 <= i < n ==> Exported(entries[i], values[i]).Done?
    ensures |ReadingsOf(entries, values, n)| <= n
  {
    if n > 0 {
      AtMostOneEach(entries, values, n - 1);
    }
  }

  lemma DatasetSends(answers: Answers, entries: seq<Entry>, ref: string, clock: nat)
    ensures |DatasetRead(answers, entries, ref, clock).sent| <= |entries|
  {
    var value := answers.readDataset(clock + 1, ref);
    if IsDatasetOf(value, entries) {
      var values := DatasetValues(entries, value.elems);
      AtMostOneEach(entries, values, StopsAt(entries, values));
    }
  }

  /** The reads of a poll, in either mode. */
  lemma ModeIsARun(b: Lifecycle.Bounds, s: Lifecycle.State, mode: ReadMode, answers: Answers, entries: seq<Entry>,
                   views: map<string, seq<Entry>>, order: seq<string>, now: Standing)
    requires forall i :: 0 <= i < |order| ==> order[i] in views && |views[order[i]]| <= b.readings
    requires b.readings >= 1 && (b.byDataset <==> mode.DATASET_READING?)
    requires StandsBefore(s, if mode.DATASET_READING? then |order| else |entries|, now)
    ensures Simulates(s, Lifecycle.Run(b, s, ModeTurns(mode, answers, entries, views, order, now.clock)),
                      ModePoll(mode, answers, entries, views, order, now.clock),
                      AfterModePoll(mode, answers, entries, views, order, now))
  {
    hide Lifecycle.Run, PollOf, DatasetsPoll, AfterObjects, AfterDatasets, ObjectTurns, DatasetTurns;
    if mode.DATASET_READING? {
      DatasetsAreARun(b, s, answers, views, order, now);
    } else {
      ObjectsAreARun(b, s, answers, entries, now);
    }
  }

  /** The two tests at the start of a poll, over a link that is up. */
  lemma TestsAreARun(b: Lifecycle.Bounds, s: Lifecycle.State, size: nat, error: int)
    requires s.reader.Poll? && s.connection.Live? && (s.connection.fault <==> error != IED_ERROR_OK) && size <= b.objects
    ensures Lifecycle.Run(b, s, TestTurns(size, error))
              == s.(connection := s.connection.(up := true),
                    reader := if error != IED_ERROR_OK then Lifecycle.LogError else Lifecycle.Reading(size))
  {
    hide Lifecycle.InitStep;
    TwoTurns(b, s, LinkTurn(true), PlainTurn());
    var tested := s.(connection := s.connection.(up := true), reader := Lifecycle.TestError);
    assert Lifecycle.Step(b, Lifecycle.Step(b, s, LinkTurn(true)), PlainTurn()) == tested;
    RunJoined(b, s, [LinkTurn(true), PlainTurn()], [ReadTurn(size, error)]);
    OneTurn(b, tested, ReadTurn(size, error));
  }

  lemma LogIsARun(b: Lifecycle.Bounds, s: Lifecycle.State)
    requires s.reader.LogError? && s.connection.Live?
    ensures Lifecycle.Run(b, s, [PlainTurn()]) == s.(reader := Lifecycle.Resting)
  {
    hide Lifecycle.InitStep;
    OneTurn(b, s, PlainTurn());
  }

  lemma PollFromState(b: Lifecycle.Bounds, s: Lifecycle.State, mode: ReadMode, answers: Answers,
                      entries: seq<Entry>, views: map<string, seq<Entry>>, order: seq<string>, now: Standing)
    requires forall i :: 0 <= i < |order| ==> order[i] in views && |views[order[i]]| <= b.readings
    requires |entries| <= b.objects && |order| <= b.objects && b.readings >= 1 && (b.byDataset <==> mode.DATASET_READING?)
    requires s.reader.Poll? && s.connection.Live? && (s.connection.fault <==> now.error != IED_ERROR_OK)
    ensures var t := Lifecycle.Run(b, s, PollTurns(mode, answers, entries, views, order, now));
            var later := now.(clock := now.clock + 1);
            if now.error != IED_ERROR_OK then Simulates(s, t, Poll([], Done(())), later)
            else Simulates(s, t, ModePoll(mode, answers, entries, views, order, later.clock),
                           AfterModePoll(mode, answers, entries, views, order, later))
  {
    hide Lifecycle.Run, ModePoll, AfterModePoll, ModeTurns;
    var size := if mode.DATASET_READING? then |order| else |entries|;
    var tests := TestTurns(size, now.error);
    var tested := Lifecycle.Run(b, s, tests);
    TestsAreARun(b, s, size, now.error);
    if now.error != IED_ERROR_OK {
      RunJoined(b, s, tests, [PlainTurn()]);
      LogIsARun(b, tested);
    } else {
      RunJoined(b, s, tests, ModeTurns(mode, answers, entries, views, order, now.clock + 1));
      ModeIsARun(b, tested, mode, answers, entries, views, order, now.(clock := now.clock + 1));
    }
  }

  /** A poll of the client is a run: from every reachable state in which a poll begins, and whose connection has an
      error recorded exactly if that of the client has, the reader and the link can move so that the run follows the
      poll that the client makes. So what is proved of every run is true of the polls of the client. */
  lemma PollIsARun(b: Lifecycle.Bounds, events: seq<Lifecycle.Event>, mode: ReadMode, answers: Answers,
                   entries: seq<Entry>, views: map<string, seq<Entry>>, order: seq<string>, now: Standing)
    requires forall i :: 0 <= i < |order| ==> order[i] in views && |views[order[i]]| <= b.readings
    requires |entries| <= b.objects && |order| <= b.objects && b.readings >= 1 && (b.byDataset <==> mode.DATASET_READING?)
    requires var s := Lifecycle.Run(b, Lifecycle.START, events);
             s.reader.Poll? && (s.connection.Live? && s.connection.fault <==> now.error != IED_ERROR_OK)
    ensures var s := Lifecycle.Run(b, Lifecycle.START, events);
            var t := Lifecycle.Run(b, Lifecycle.START, events + PollTurns(mode, answers, entries, views, order, now));
            var later := now.(clock := now.clock + 1);
            if now.error != IED_ERROR_OK then Simulates(s, t, Poll([], Done(())), later)
            else Simulates(s, t, ModePoll(mode, answers, entries, views, order, later.clock),
                           AfterModePoll(mode, answers, entries, views, order, later))
  {
    var s := Lifecycle.Run(b, Lifecycle.START, events);
    assert s.connection.Live? by {
      Lifecycle.RunKeeps(b, Lifecycle.START, events);
    }
    hide Lifecycle.Run, PollTurns, ModePoll, AfterModePoll, Simulates;
    RunJoined(b, Lifecycle.START, events, PollTurns(mode, answers, entries, views, order, now));
    PollFromState(b, s, mode, answers, entries, views, order, now);
  }
}
