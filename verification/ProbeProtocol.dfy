/**
 The probe supervisor and its child (src/arail/deep_probe.py): reading the framed protocol under
 deadlines, accounting for the five calls, and the exit code.
 */
module ProbeProtocol {
  import opened Basics
  import Reader = ProbeReader

  const TOTAL_CALLS := 5

  type Bytes = Reader.Bytes

  /** A call event: its number, whether it answered, and how the child says it ended ("" for not at all). */
  datatype Call = Call(i: int, ok: bool, end: string)

  /** A line of the child that is an event of the protocol. */
  datatype Event = Identity | Loaded | LoadFailed | Called(call: Call) | Done | OtherEvent

  /** What a line parses to: None for a line that is not JSON or not ours. */
  type Parser = Bytes -> Option<Event>

  predicate Ends(ev: Event) {
    ev.Done? || ev.LoadFailed?
  }

  /** The events of some lines, in order. */
  function EventsOf(parse: Parser, lines: seq<Bytes>): seq<Event> {
    if lines == [] then []
    else
      var ev := parse(lines[|lines| - 1]);
      EventsOf(parse, lines[..|lines| - 1]) + if ev.Some? then [ev.value] else []
  }

  /** Events up to and with the first that ends the protocol. */
  function UpToEnd(evs: seq<Event>): seq<Event> {
    if evs == [] then []
    else if Ends(evs[0]) then [evs[0]]
    else [evs[0]] + UpToEnd(evs[1..])
  }

  lemma {:induction false} UpToEndIs(evs: seq<Event>)
    ensures var first := UpToEnd(evs);
            && first <= evs
            && (forall i :: 0 <= i < |first| - 1 ==> !Ends(first[i]))
            && (first != evs ==> first != [] && Ends(first[|first| - 1]))
  {
    if evs != [] {
      assert evs == [evs[0]] + evs[1..];
      if !Ends(evs[0]) {
        UpToEndIs(evs[1..]);
      }
    }
  }

  ghost predicate HasEnd(evs: seq<Event>) {
    exists i :: 0 <= i < |evs| && Ends(evs[i])
  }

  /** The events a supervisor that has read `read` acts on. */
  function ActedOn(parse: Parser, read: Bytes): seq<Event> {
    UpToEnd(EventsOf(parse, Reader.Ended(read)))
  }

  lemma {:induction false} NoEndIsWhole(evs: seq<Event>)
    requires forall i :: 0 <= i < |evs| ==> !Ends(evs[i])
    ensures UpToEnd(evs) == evs
  {
    UpToEndIs(evs);
  }

  lemma {:induction false} EventsOfConcat(parse: Parser, a: seq<Bytes>, b: seq<Bytes>)
    ensures EventsOf(parse, a + b) == EventsOf(parse, a) + EventsOf(parse, b)
  {
    if b == [] {
      assert a + b == a;
    } else {
      var n := |b| - 1;
      EventsOfConcat(parse, a, b[..n]);
      assert (a + b)[..|a + b| - 1] == a + b[..n];
    }
  }

  lemma {:induction false} UpToEndGrows(evs: seq<Event>, more: seq<Event>)
    ensures UpToEnd(evs) <= UpToEnd(evs + more)
    ensures HasEnd(UpToEnd(evs)) ==> UpToEnd(evs + more) == UpToEnd(evs)
  {
    if evs == [] {
      assert evs + more == more;
    } else {
      assert (evs + more)[0] == evs[0] && (evs + more)[1..] == evs[1..] + more;
      if !Ends(evs[0]) {
        UpToEndGrows(evs[1..], more);
      }
    }
  }

  lemma NoEndNoCut(evs: seq<Event>)
    requires !HasEnd(UpToEnd(evs))
    ensures UpToEnd(evs) == evs
  {
    UpToEndIs(evs);
  }

  /**
   For every way of chunking, and wherever the reading stopped: what was acted on is a prefix of what the
   child emitted, and all of it up to the end event once that was read.
   */
  lemma ActedOnIsPrefix(parse: Parser, read: Bytes, unread: Bytes)
    ensures ActedOn(parse, read) <= ActedOn(parse, read + unread)
    ensures HasEnd(ActedOn(parse, read)) ==> ActedOn(parse, read + unread) == ActedOn(parse, read)
  {
    Reader.EndedGrows(read, unread);
    var lines, all := Reader.Ended(read), Reader.Ended(read + unread);
    assert all == lines + all[|lines|..];
    EventsOfConcat(parse, lines, all[|lines|..]);
    UpToEndGrows(EventsOf(parse, lines), EventsOf(parse, all[|lines|..]));
  }

  // ----- the supervisor -----

  datatype EndKind = Finished | Died | TimedOut
  datatype Where = InLoad | InCall(n: int)

  /** One turn of the loop: what the clock, the pipe and the child's process say in it. */
  datatype Tick = Tick(interrupted: bool, now: real, chunk: Option<Bytes>, later: real, exited: bool) {
    function Given(): Bytes {
      if chunk.Some? then chunk.value else []
    }
  }

  datatype Outcome = Interrupted | Over | StillRunning

  /** Whether a turn stops the loop, and how. */
  datatype Ending = GoesOn | Stops(outcome: Outcome, end: Option<EndKind>)

  /**
   How a turn ends: an interrupt, the deadline, an event that ended the protocol and the death of the child,
   whichever comes first in this order.
   */
  function TurnEnding(tick: Tick, late: bool, ended: bool, eof: bool): Ending {
    if tick.interrupted then Stops(Interrupted, None)
    else if late then Stops(Over, Some(TimedOut))
    else if ended then Stops(Over, Some(Finished))
    else if tick.exited || eof then Stops(Over, Some(Died))
    else GoesOn
  }

  /** The events that give the child a new deadline. */
  predicate IsProgress(ev: Event) {
    ev.Loaded? || ev.Called?
  }

  predicate Progress(evs: seq<Event>) {
    evs != [] && (Progress(evs[..|evs| - 1]) || IsProgress(evs[|evs| - 1]))
  }

  lemma ProgressStep(evs: seq<Event>, from: nat, ev: Event)
    requires from <= |evs|
    ensures Progress((evs + [ev])[from..]) <==> Progress(evs[from..]) || IsProgress(ev)
  {
    assert (evs + [ev])[from..] == evs[from..] + [ev];
    assert (evs[from..] + [ev])[..|evs[from..]|] == evs[from..];
  }

  /** Some turn found the pipe closed. */
  predicate Eof(ticks: seq<Tick>) {
    ticks != [] && (Eof(ticks[..|ticks| - 1]) || ticks[|ticks| - 1].chunk == Some([]))
  }

  function CallsOf(evs: seq<Event>): seq<Call> {
    if evs == [] then []
    else
      var last := evs[|evs| - 1];
      CallsOf(evs[..|evs| - 1]) + if last.Called? then [last.call] else []
  }

  /** Everything the pipe gives in some turns. */
  function Given(ticks: seq<Tick>): Bytes {
    if ticks == [] then []
    else Given(ticks[..|ticks| - 1]) + ticks[|ticks| - 1].Given()
  }

  lemma GivenStep(ticks: seq<Tick>, i: nat)
    requires i < |ticks|
    ensures Given(ticks[..i + 1]) == Given(ticks[..i]) + ticks[i].Given()
  {
    assert ticks[..i + 1][..i] == ticks[..i];
  }

  lemma {:induction false} GivenPrefix(ticks: seq<Tick>, i: nat)
    requires i <= |ticks|
    ensures Given(ticks[..i]) <= Given(ticks)
    decreases |ticks| - i
  {
    if i < |ticks| {
      GivenStep(ticks, i);
      GivenPrefix(ticks, i + 1);
    } else {
      assert ticks[..i] == ticks;
    }
  }

  /** The last of the events ends the protocol and none before it does. */
  ghost predicate EndsLast(evs: seq<Event>) {
    evs != [] && Ends(evs[|evs| - 1]) && forall i :: 0 <= i < |evs| - 1 ==> !Ends(evs[i])
  }

  lemma EndStep(evs: seq<Event>, ev: Event)
    requires !HasEnd(evs)
    ensures Ends(ev) ==> EndsLast(evs + [ev])
    ensures !Ends(ev) ==> !HasEnd(evs + [ev])
  {
  }

  lemma EndsLastIsCut(evs: seq<Event>)
    requires EndsLast(evs)
    ensures UpToEnd(evs) == evs && HasEnd(evs)
  {
    UpToEndIs(evs);
  }

  lemma MemberStep(evs: seq<Event>, ev: Event, x: Event)
    ensures x in evs + [ev] <==> x in evs || x == ev
  {
  }

  lemma CallsStep(evs: seq<Event>, ev: Event)
    ensures CallsOf(evs + [ev]) == CallsOf(evs) + if ev.Called? then [ev.call] else []
  {
  }

  /** What is read and not yet ended is a suffix, and what was acted on comes from the lines before it. */
  lemma BufferIsSuffix(parse: Parser, read: Bytes, acted: seq<Event>, more: Bytes) returns (from: Bytes)
    requires acted == ActedOn(parse, read) && !HasEnd(acted)
    ensures read + more == from + (Reader.Open(read) + more) && Reader.Open(from) == []
    ensures acted == EventsOf(parse, Reader.Ended(from))
  {
    from := read[..|read| - |Reader.Open(read)|];
    OpenIsSuffix(read);
    NoEndNoCut(EventsOf(parse, Reader.Ended(read)));
    Associates(from, Reader.Open(read), more);
  }

  lemma Associates(a: Bytes, b: Bytes, c: Bytes)
    ensures a + b + c == a + (b + c)
  {
  }

  class Supervisor {
    const parse: Parser
    const loadTimeout: real
    const callTimeout: real
    const begun: real
    var buf: Bytes
    var identity: bool
    var loaded: bool
    var loadFailed: bool
    var calls: seq<Call>
    var end: Option<EndKind>
    var diedDuring: Option<Where>
    var last: real
    var deadline: real
    ghost var read: Bytes
    ghost var acted: seq<Event>

    constructor (parse: Parser, loadTimeout: real, callTimeout: real, now: real)
      ensures this.parse == parse && this.loadTimeout == loadTimeout && this.callTimeout == callTimeout
      ensures begun == now && deadline == now + loadTimeout
      ensures State() && read == [] && end.None? && diedDuring.None? && buf == []
    {
      this.parse, this.loadTimeout, this.callTimeout, begun := parse, loadTimeout, callTimeout, now;
      buf, identity, loaded, loadFailed, calls := [], false, false, false, [];
      end, diedDuring, last, deadline := None, None, now, now + loadTimeout;
      read, acted := [], [];
    }

    /** The fields say what the events acted on say. */
    ghost predicate FieldsFit()
      reads this
    {
      && (identity <==> Identity in acted)
      && (loaded <==> Loaded in acted)
      && (loadFailed <==> LoadFailed in acted)
      && calls == CallsOf(acted)
    }

    /** Between turns: every line read has been acted on, up to the end event. */
    ghost predicate State()
      reads this
    {
      && FieldsFit()
      && acted == ActedOn(parse, read)
      && (end.None? ==> !HasEnd(acted) && buf == Reader.Open(read))
      && (end == Some(Finished) ==> HasEnd(acted))
    }

    /** The deadline after some turns: a call's time after the last turn that made progress, a load's time before any did. */
    function Deadline(ticks: seq<Tick>): real {
      if ticks == [] then begun + loadTimeout
      else
        var n := |ticks| - 1;
        var before, after := ActedOn(parse, Given(ticks[..n])), ActedOn(parse, Given(ticks));
        if |before| <= |after| && Progress(after[|before|..]) then ticks[n].later + callTimeout else Deadline(ticks[..n])
    }

    /** How the last of some turns ends, all the others having gone on. */
    ghost function EndingOf(ticks: seq<Tick>): Ending
      requires ticks != []
    {
      var n := |ticks| - 1;
      TurnEnding(ticks[n], ticks[n].now >= Deadline(ticks[..n]), HasEnd(ActedOn(parse, Given(ticks))), Eof(ticks))
    }

    /** The first `n` turns all go on. */
    ghost predicate GoOn(ticks: seq<Tick>, n: nat)
      requires n <= |ticks|
    {
      n == 0 || (GoOn(ticks, n - 1) && EndingOf(ticks[..n]).GoesOn?)
    }

    lemma AtTurn(ticks: seq<Tick>, i: nat)
      requires i < |ticks|
      ensures var tick, before := ticks[i], ActedOn(parse, Given(ticks[..i]));
              var after := ActedOn(parse, Given(ticks[..i]) + tick.Given());
              && Given(ticks[..i + 1]) == Given(ticks[..i]) + tick.Given()
              && Eof(ticks[..i + 1]) == (Eof(ticks[..i]) || tick.chunk == Some([]))
              && EndingOf(ticks[..i + 1]) == TurnEnding(tick, tick.now >= Deadline(ticks[..i]), HasEnd(after), Eof(ticks[..i + 1]))
              && (before <= after ==> Deadline(ticks[..i + 1])
                                      == if Progress(after[|before|..]) then tick.later + callTimeout else Deadline(ticks[..i]))
    {
      GivenStep(ticks, i);
      assert ticks[..i + 1][..i] == ticks[..i];
    }

    /** What one event does. */
    method Act(ev: Event, later: real)
      requires FieldsFit() && end.None?
      modifies this`identity, this`loaded, this`loadFailed, this`calls, this`end, this`last, this`deadline, this`acted
      ensures FieldsFit() && acted == old(acted) + [ev]
      ensures end == if Ends(ev) then Some(Finished) else None
      ensures deadline == if IsProgress(ev) then later + callTimeout else old(deadline)
    {
      MemberStep(acted, ev, Identity);
      MemberStep(acted, ev, Loaded);
      MemberStep(acted, ev, LoadFailed);
      CallsStep(acted, ev);
      last := later;
      match ev {
        case Identity => identity := true;
        case Loaded =>
          loaded := true;
          deadline := last + callTimeout;
        case LoadFailed =>
          loadFailed := true;
          end := Some(Finished);
        case Called(call) =>
          calls := calls + [call];
          deadline := last + callTimeout;
        case Done => end := Some(Finished);
        case OtherEvent =>
      }
      acted := acted + [ev];
    }

    /** The deadline is that of the start, or set anew by the events acted on since. */
    ghost predicate DeadlineSince(start: seq<Event>, was: real, later: real)
      reads this
    {
      start <= acted && deadline == if Progress(acted[|start|..]) then later + callTimeout else was
    }

    /** Act on one whole line. */
    method ActOnLine(later: real, ghost from: Bytes, ghost start: seq<Event>, ghost was: real) returns (ghost next: Bytes)
      requires FieldsFit() && end.None? && !HasEnd(acted) && InStep(from) && DeadlineSince(start, was, later) && Reader.NEWLINE in buf
      modifies this`buf, this`identity, this`loaded, this`loadFailed, this`calls, this`end, this`last, this`deadline, this`acted
      ensures FieldsFit() && InStep(next) && (end.None? || end == Some(Finished))
      ensures if end.None? then !HasEnd(acted) else EndsLast(acted)
      ensures DeadlineSince(start, was, later) && |buf| < |old(buf)|
    {
      var n := Reader.UpToNewline(buf, 0);
      LineStep(from, n);
      var raw := buf[..n];
      buf := buf[n + 1..];
      next := from + raw + [Reader.NEWLINE];
      var ev := parse(raw);
      if ev.Some? {
        EndStep(acted, ev.value);
        ProgressStep(acted, |start|, ev.value);
        Act(ev.value, later);
      }
    }

    /** The inner loop: act on every whole line in the buffer until an event ends the protocol. */
    method ActOnLines(later: real, ghost start: Bytes)
      requires FieldsFit() && end.None? && !HasEnd(acted) && InStep(start)
      modifies this`buf, this`identity, this`loaded, this`loadFailed, this`calls, this`end, this`last, this`deadline, this`acted
      ensures State() && read == old(read) && (end.None? || end == Some(Finished))
      ensures DeadlineSince(old(acted), old(deadline), later)
    {
      ghost var from := start;
      while Reader.NEWLINE in buf && end.None?
        invariant FieldsFit() && InStep(from) && (end.None? || end == Some(Finished))
        invariant end.None? ==> !HasEnd(acted)
        invariant end.Some? ==> EndsLast(acted)
        invariant DeadlineSince(old(acted), old(deadline), later)
        decreases |buf|
      {
        from := ActOnLine(later, from, old(acted), old(deadline));
      }
      LinesDone(from);
    }

    /** The bytes before the buffer are whole lines, and they have been acted on. */
    ghost predicate InStep(from: Bytes)
      reads this
    {
      && read == from + buf && Reader.Open(from) == []
      && acted == EventsOf(parse, Reader.Ended(from))
    }

    lemma LineStep(from: Bytes, n: nat)
      requires InStep(from) && n < |buf| && Reader.NEWLINE !in buf[..n] && buf[n] == Reader.NEWLINE
      ensures var more := from + buf[..n] + [Reader.NEWLINE];
              && read == more + buf[n + 1..] && Reader.Open(more) == []
              && EventsOf(parse, Reader.Ended(more))
                 == acted + if parse(buf[..n]).Some? then [parse(buf[..n]).value] else []
    {
      Reader.EndLine(from, buf[..n]);
      assert buf == buf[..n] + [Reader.NEWLINE] + buf[n + 1..];
      var lines := Reader.Ended(from);
      assert [] + buf[..n] == buf[..n];
      assert (lines + [buf[..n]])[..|lines|] == lines;
    }

    lemma LinesDone(from: Bytes)
      requires FieldsFit() && InStep(from) && (end.None? || end == Some(Finished))
      requires end.None? ==> !HasEnd(acted) && Reader.NEWLINE !in buf
      requires end.Some? ==> EndsLast(acted)
      ensures State()
    {
      if end.None? {
        Reader.OpenMore(from, buf);
        assert [] + buf == buf;
        NoEndIsWhole(acted);
      } else {
        EndsLastIsCut(acted);
        ActedOnIsPrefix(parse, from, buf);
      }
    }

    /** After `i` turns that went on. */
    ghost predicate Between(ticks: seq<Tick>, i: nat, eof: bool)
      requires i <= |ticks|
      reads this
    {
      && State() && end.None? && diedDuring.None? && GoOn(ticks, i)
      && read == Given(ticks[..i]) && eof == Eof(ticks[..i]) && deadline == Deadline(ticks[..i])
    }

    /** Turn `i` has stopped the loop, after others that went on. */
    ghost predicate StoppedAt(ticks: seq<Tick>, i: nat, outcome: Outcome)
      requires i < |ticks|
      reads this
    {
      && GoOn(ticks, i) && EndingOf(ticks[..i + 1]) == Stops(outcome, end)
      && read == Given(ticks[..if outcome.Over? && end != Some(TimedOut) then i + 1 else i])
    }

    /** The fields say what was acted on, and where the child was if it did not finish. */
    ghost predicate Accounted()
      reads this
    {
      && FieldsFit() && acted == ActedOn(parse, read) && (end == Some(Finished) <==> HasEnd(acted))
      && DiedThere()
    }

    /** A child that did not finish died loading, or in the call behind the last that reported. */
    ghost predicate DiedThere()
      reads this
    {
      diedDuring == if end.None? || end == Some(Finished) then None
                    else if Loaded in acted then Some(InCall(|CallsOf(acted)| + 1)) else Some(InLoad)
    }

    /**
     `_drive_child`, over the turns of its loop: it goes on for as long as no turn stops it, and then ends the
     way that turn says. When it is over the fields fit the events acted on, the end is set, and it is
     `Finished` exactly when an event ended the protocol.
     */
    method Drive(ticks: seq<Tick>) returns (outcome: Outcome, ghost turns: nat)
      requires State() && read == [] && end.None? && diedDuring.None? && deadline == begun + loadTimeout
      modifies this
      ensures turns <= |ticks| && GoOn(ticks, turns) && (outcome.StillRunning? <==> turns == |ticks|)
      ensures if turns == |ticks| then read == Given(ticks) else StoppedAt(ticks, turns, outcome)
      ensures Accounted() && (outcome.Over? <==> end.Some?) && read <= Given(ticks)
    {
      var eof := false;
      turns := 0;
      for i := 0 to |ticks|
        invariant turns == i && Between(ticks, i, eof)
      {
        var over;
        over, eof := NextTurn(ticks, i, eof);
        GivenPrefix(ticks, i);
        GivenPrefix(ticks, i + 1);
        if over.Some? {
          return over.value, turns;
        }
        turns := turns + 1;
      }
      assert ticks[..|ticks|] == ticks;
      outcome := StillRunning;
    }

    method NextTurn(ticks: seq<Tick>, i: nat, before: bool) returns (over: Option<Outcome>, eof: bool)
      requires i < |ticks| && Between(ticks, i, before)
      modifies this
      ensures over.None? ==> Between(ticks, i + 1, eof)
      ensures over.Some? ==> StoppedAt(ticks, i, over.value) && Accounted() && !over.value.StillRunning?
      ensures over == Some(Over) <==> end.Some?
    {
      AtTurn(ticks, i);
      eof := before || ticks[i].chunk == Some([]);
      over := Turn(ticks[i], eof);
    }

    /** What the child was doing: a call, or loading. */
    function Now(): Where
      reads this`loaded, this`calls
    {
      if loaded then InCall(|calls| + 1) else InLoad
    }

    /** One turn of the loop. */
    method Turn(tick: Tick, eof: bool) returns (over: Option<Outcome>)
      requires State() && end.None? && diedDuring.None?
      modifies this
      ensures Accounted() && (over.None? ==> State() && end.None?)
      ensures TurnEnding(tick, tick.now >= old(deadline), HasEnd(ActedOn(parse, old(read) + tick.Given())), eof)
              == if over.None? then GoesOn else Stops(over.value, end)
      ensures read == if tick.interrupted || tick.now >= old(deadline) then old(read) else old(read) + tick.Given()
      ensures over.None? ==> DeadlineSince(old(acted), old(deadline), tick.later)
    {
      if tick.interrupted {
        return Some(Interrupted);
      }
      if tick.now >= deadline {
        end, diedDuring := Some(TimedOut), Some(Now());
        return Some(Over);
      }
      over := ReadTurn(tick, eof);
    }

    /** The turn from its read on. */
    method ReadTurn(tick: Tick, eof: bool) returns (over: Option<Outcome>)
      requires State() && end.None? && diedDuring.None?
      modifies this
      ensures Accounted() && (over.None? ==> State() && end.None?) && read == old(read) + tick.Given()
      ensures end == if HasEnd(acted) then Some(Finished) else if eof || tick.exited then Some(Died) else None
      ensures over == if end.Some? then Some(Over) else None
      ensures over.None? ==> DeadlineSince(old(acted), old(deadline), tick.later)
    {
      ReadAndAct(tick.Given(), tick.later);
      if end.Some? {
        return Some(Over);
      }
      if eof || tick.exited {
        Bury();
        return Some(Over);
      }
      over := None;
    }

    /** The child is gone. */
    method Bury()
      requires State() && end.None?
      modifies this`end, this`diedDuring
      ensures Accounted() && end == Some(Died)
    {
      end, diedDuring := Some(Died), Some(Now());
    }

    method ReadAndAct(more: Bytes, later: real)
      requires State() && end.None?
      modifies this`buf, this`read, this`identity, this`loaded, this`loadFailed, this`calls, this`end, this`last,
        this`deadline, this`acted
      ensures State() && read == old(read) + more && (end.None? || end == Some(Finished))
      ensures DeadlineSince(old(acted), old(deadline), later)
    {
      ghost var from := Receive(more);
      ActOnLines(later, from);
    }

    /** A chunk goes behind what is in the buffer. */
    method Receive(more: Bytes) returns (ghost from: Bytes)
      requires State() && end.None?
      modifies this`buf, this`read
      ensures FieldsFit() && end.None? && !HasEnd(acted) && InStep(from)
      ensures read == old(read) + more
    {
      from := BufferIsSuffix(parse, read, acted, more);
      buf := buf + more;
      read := read + more;
    }
  }

  lemma {:induction false} OpenIsSuffix(s: Bytes)
    ensures var n := |s| - |Reader.Open(s)|;
            s == s[..n] + Reader.Open(s) && Reader.Open(s[..n]) == [] && Reader.Ended(s[..n]) == Reader.Ended(s)
    decreases |s|
  {
    if s != [] && s[|s| - 1] != Reader.NEWLINE {
      var front := s[..|s| - 1];
      OpenIsSuffix(front);
      var n := |front| - |Reader.Open(front)|;
      assert s[..n] == front[..n];
      assert s == front + [s[|s| - 1]];
    } else {
      assert s[..|s|] == s;
    }
  }
}
