/**
 The terminal input path of the TUI (`backend/apps/omnescode/src/app.rs`): the decoder that reassembles split mouse
 sequences, drag coalescing with its read-ahead, and one poll of the event loop. Ghost fields record which raw
 terminal events every decoded event stands for, so that nothing can be dropped, duplicated or reordered unseen.
 */
module InputPipeline {
  import opened Sequences
  import opened SgrMouse
  import opened Wrappers

  const TICK: nat := 200
  const SGR_MOUSE_SEQUENCE_TIMEOUT: nat := 50
  const MAX_COALESCED_MOUSE_DRAGS: nat := 64

  /** A decoded event with the raw terminal events it stands for. */
  datatype Piece = Piece(event: Event, raw: seq<Event>)

  /** Either one event passed through, or one complete mouse sequence and the event it spells. */
  predicate PieceOk(p: Piece) {
    || p.raw == [p.event]
    || (p.raw != [] && IsSgrMouseStart(p.raw[0]) && CompletedSequence(p.raw).Some?
        && p.event == Mouse(CompletedSequence(p.raw).value))
  }

  /** The pieces stand for the events, one by one. */
  predicate Explains(pieces: seq<Piece>, events: seq<Event>) {
    |pieces| == |events| && forall i | 0 <= i < |events| :: PieceOk(pieces[i]) && pieces[i].event == events[i]
  }

  lemma ExplainsAppend(a: seq<Piece>, events: seq<Event>, b: seq<Piece>, more: seq<Event>)
    requires Explains(a, events) && Explains(b, more)
    ensures Explains(a + b, events + more)
  {
  }

  function RawOf(pieces: seq<Piece>): seq<Event> {
    if pieces == [] then [] else pieces[0].raw + RawOf(pieces[1..])
  }

  lemma {:induction false} RawOfAppend(a: seq<Piece>, b: seq<Piece>)
    ensures RawOf(a + b) == RawOf(a) + RawOf(b)
  {
    if a == [] {
      assert a + b == b;
    } else {
      RawOfAppend(a[1..], b);
      assert (a + b)[0] == a[0] && (a + b)[1..] == a[1..] + b;
      Regroup(a[0].raw, RawOf(a[1..]), RawOf(b));
    }
  }

  lemma {:induction false} RawOfUnchanged(events: seq<Event>)
    ensures RawOf(Unchanged(events)) == events
  {
    if events != [] {
      RawOfUnchanged(events[1..]);
      assert Unchanged(events)[1..] == Unchanged(events[1..]);
    }
  }

  function Unchanged(events: seq<Event>): seq<Piece> {
    seq(|events|, i requires 0 <= i < |events| => Piece(events[i], [events[i]]))
  }

  /** The pieces behind what one decoding step emits. */
  function StepPieces(candidate: seq<Event>, event: Event): (pieces: seq<Piece>)
    requires candidate != [] ==> IsSgrMouseStart(candidate[0])
    ensures Explains(pieces, FeedStep(candidate, event).0)
  {
    var grown := candidate + [event];
    if candidate == [] then (if IsSgrMouseStart(event) then [] else [Piece(event, [event])])
    else if Viable(grown) then []
    else if CompletedSequence(grown).Some? then
      [Piece(Mouse(CompletedSequence(grown).value), grown)]
    else Unchanged(grown)
  }

  lemma StepConserves(candidate: seq<Event>, event: Event)
    requires candidate != [] ==> IsSgrMouseStart(candidate[0])
    ensures RawOf(StepPieces(candidate, event)) + FeedStep(candidate, event).1 == candidate + [event]
  {
    RawOfUnchanged(candidate + [event]);
  }

  lemma FeedConserves(pieces: seq<Piece>, candidate: seq<Event>, event: Event)
    requires candidate != [] ==> IsSgrMouseStart(candidate[0])
    ensures RawOf(pieces + StepPieces(candidate, event)) + FeedStep(candidate, event).1
      == RawOf(pieces) + candidate + [event]
  {
    var stepped := StepPieces(candidate, event);
    StepConserves(candidate, event);
    RawOfAppend(pieces, stepped);
    Regroup(RawOf(pieces), RawOf(stepped), FeedStep(candidate, event).1);
    Regroup(RawOf(pieces), candidate, [event]);
  }

  function MouseDragButton(event: Event): Option<MouseButton> {
    if event.Mouse? && event.mouse.kind.Drag? then Some(event.mouse.kind.button) else None
  }

  predicate IsDrag(event: Event) { event.Mouse? && event.mouse.kind.Drag? }

  /** A mouse event of the same kind, for a drag with the same button. */
  predicate LikeDrag(event: Event, drag: Event)
    requires IsDrag(drag)
  {
    event.Mouse? && event.mouse.kind == drag.mouse.kind
  }

  /** The pieces of one delivery: a single piece, or a run of 1 to 64 drags of one button, delivered as the last. */
  predicate BlockOk(event: Event, block: seq<Piece>) {
    && 1 <= |block| <= MAX_COALESCED_MOUSE_DRAGS
    && (forall p | p in block :: PieceOk(p))
    && block[|block| - 1].event == event
    && (|block| > 1 ==> SameDrag(event, block))
  }

  predicate SameDrag(event: Event, block: seq<Piece>) {
    MouseDragButton(event).Some? && forall p | p in block :: MouseDragButton(p.event) == MouseDragButton(event)
  }

  /** A call on the terminal, with its answer. */
  datatype Call = Polled(timeout: nat, ready: Result<bool>) | Reading(event: Result<Event>)

  /** The last call found an event ready. */
  predicate Awaits(calls: seq<Call>) {
    calls != [] && calls[|calls| - 1].Polled? && calls[|calls| - 1].ready == Ok(true)
  }

  /**
   Events are read exactly when they are ready: a read directly follows every poll that found one, and is never
   attempted, and so never waits, anywhere else.
   */
  predicate Prompt(calls: seq<Call>) {
    !Awaits(calls) && forall i | 0 <= i < |calls| :: calls[i].Reading? <==> Awaits(calls[..i])
  }

  /** The last call found nothing after `timeout`. */
  predicate Idled(calls: seq<Call>, timeout: nat) {
    calls != [] && calls[|calls| - 1] == Polled(timeout, Ok(false))
  }

  predicate Failed(calls: seq<Call>) {
    && calls != []
    && var last := calls[|calls| - 1];
      if last.Polled? then last.ready.Err? else last.event.Err?
  }

  /** How many polls found nothing for a whole tick. */
  function IdleTicks(calls: seq<Call>): nat {
    if calls == [] then 0 else IdleTicks(calls[..|calls| - 1]) + (if Idled(calls, TICK) then 1 else 0)
  }

  /**
   The terminal as its callers see it: every answer is arbitrary, calls and what was read are logged, the clock never
   runs backwards, and a poll that reports nothing has waited for its whole timeout.
   */
  class Terminal {
    var now: nat
    ghost var log: seq<Event>
    ghost var calls: seq<Call>

    constructor ()
      ensures log == [] && calls == []
    {
      now, log, calls := 0, [], [];
    }

    method Poll(timeout: nat) returns (ready: Result<bool>)
      modifies this
      ensures calls == old(calls) + [Polled(timeout, ready)]
      ensures log == old(log) && now >= old(now)
      ensures ready == Ok(false) ==> now >= old(now) + timeout
    {
      var waited :| waited >= 0;
      ready := *;
      if ready == Ok(false) && waited < timeout {
        waited := timeout;
      }
      now := now + waited;
      calls := calls + [Polled(timeout, ready)];
    }

    method Read() returns (event: Result<Event>)
      modifies this
      ensures calls == old(calls) + [Reading(event)]
      ensures log == old(log) + (if event.Ok? then [event.value] else []) && now >= old(now)
    {
      var waited :| waited >= 0;
      event := *;
      now := now + waited;
      calls := calls + [Reading(event)];
      if event.Ok? {
        log := log + [event.value];
      }
    }

    /** A poll, and the read that a poll that finds an event calls for. */
    method ReadWithin(timeout: nat) returns (event: Result<Option<Event>>)
      requires Prompt(calls)
      modifies this
      ensures Prompt(calls) && |calls| > old(|calls|) && now >= old(now)
      ensures log == old(log) + (if event.Ok? && event.value.Some? then [event.value.value] else [])
      ensures event.Err? ==> Failed(calls)
      ensures event == Ok(None) ==> Idled(calls, timeout) && now >= old(now) + timeout
      ensures IdleTicks(calls) == old(IdleTicks(calls)) + (if event == Ok(None) && timeout == TICK then 1 else 0)
    {
      hide Prompt, Failed, Idled, IdleTicks;
      var ready := Poll(timeout);
      if ready.Err? {
        PollSnoc(old(calls), timeout, ready);
        return Err;
      }
      if !ready.value {
        PollSnoc(old(calls), timeout, ready);
        return Ok(None);
      }
      var read := Read();
      ReadSnoc(old(calls), timeout, read);
      match read {
        case Err =>
          return Err;
        case Ok(next) =>
          return Ok(Some(next));
      }
    }
  }

  /** A poll that finds nothing, or fails. */
  lemma PollSnoc(calls: seq<Call>, timeout: nat, ready: Result<bool>)
    requires Prompt(calls) && (ready.Ok? ==> !ready.value)
    ensures var calls' := calls + [Polled(timeout, ready)];
      && Prompt(calls') && (Failed(calls') <==> ready.Err?) && (Idled(calls', timeout) <==> ready.Ok?)
      && IdleTicks(calls') == IdleTicks(calls) + (if ready.Ok? && timeout == TICK then 1 else 0)
  {
    hide Awaits;
    CallSnoc(calls, Polled(timeout, ready));
    match ready {
      case Ok(found) =>
        assert !found;
      case Err =>
    }
    assert !Awaits(calls + [Polled(timeout, ready)]) by { Awaiting(calls, Polled(timeout, ready)); }
  }

  /** A poll that finds an event, and the read after it. */
  lemma ReadSnoc(calls: seq<Call>, timeout: nat, event: Result<Event>)
    requires Prompt(calls)
    ensures var calls' := calls + [Polled(timeout, Ok(true))] + [Reading(event)];
      Prompt(calls') && (Failed(calls') <==> event.Err?) && IdleTicks(calls') == IdleTicks(calls)
  {
    hide Awaits;
    var polled := calls + [Polled(timeout, Ok(true))];
    CallSnoc(calls, Polled(timeout, Ok(true)));
    CallSnoc(polled, Reading(event));
    Awaiting(calls, Polled(timeout, Ok(true)));
    Awaiting(polled, Reading(event));
    assert polled[..|polled|] == polled && calls[..|calls|] == calls;
    assert Idled(polled, TICK) == false;
  }

  lemma Awaiting(calls: seq<Call>, call: Call)
    ensures Awaits(calls + [call]) <==> call.Polled? && call.ready == Ok(true)
  {
  }

  lemma CallSnoc(calls: seq<Call>, call: Call)
    ensures var calls' := calls + [call];
      && IdleTicks(calls') == IdleTicks(calls) + (if Idled(calls', TICK) then 1 else 0)
      && forall i | 0 <= i <= |calls| :: calls'[..i] == calls[..i]
  {
    var calls' := calls + [call];
    assert calls'[..|calls|] == calls;
  }

  datatype PrefixVerdict = TooShort | Differs | Matches

  /** Compares the characters after the escape with the two that open a mouse report. */
  method MatchPrefix(chars: string) returns (verdict: PrefixVerdict)
    ensures verdict == Matches <==> |chars| >= 2 && chars[..2] == "[<"
    ensures verdict == TooShort <==> chars == "" || chars == "["
  {
    var prefix := "[<";
    var index := 0;
    while index < |prefix|
      invariant 0 <= index <= |prefix| && index <= |chars| && chars[..index] == prefix[..index]
    {
      if index >= |chars| {
        assert chars == chars[..index];
        return TooShort;
      }
      if chars[index] != prefix[index] {
        WrongPrefix(chars, index);
        return Differs;
      }
      index := index + 1;
    }
    return Matches;
  }

  class SgrMouseEventDecoder {
    var pending: seq<Event>
    var candidate: seq<Event>
    var candidateStartedAt: Option<nat>
    /** What each pending event stands for. */
    ghost var pieces: seq<Piece>

    ghost predicate Valid()
      reads this
    {
      && Explains(pieces, pending)
      && (candidate == [] <==> candidateStartedAt == None)
      && (candidate != [] ==> Viable(candidate) && IsSgrMouseStart(candidate[0]))
      && |candidate| <= MAX_SGR_MOUSE_SEQUENCE_EVENTS
    }

    /** Everything read from the terminal and not yet handed out, oldest first. */
    ghost function Held(): seq<Event>
      reads this
    {
      RawOf(pieces) + candidate
    }

    /** The candidate, if any, was started in the past. */
    ghost predicate Timely(terminal: Terminal)
      reads this, terminal
    {
      candidateStartedAt.Some? ==> candidateStartedAt.value <= terminal.now
    }

    constructor ()
      ensures Valid() && candidateStartedAt == None && Held() == [] && pending == []
    {
      pending, candidate, candidateStartedAt, pieces := [], [], None, [];
    }

    method Feed(event: Event, now: nat)
      requires Valid()
      modifies this
      ensures Valid() && Held() == old(Held()) + [event]
      ensures pending == old(pending) + FeedStep(old(candidate), event).0
      ensures candidate == FeedStep(old(candidate), event).1
      ensures |candidate| == old(|candidate|) + 1 || pending != []
      ensures candidateStartedAt
        == if candidate == [] then None else if old(candidate) == [] then Some(now) else old(candidateStartedAt)
      ensures pieces == old(pieces) + StepPieces(old(candidate), event)
    {
      ghost var stepped := StepPieces(candidate, event);
      FeedConserves(pieces, candidate, event);
      ExplainsAppend(pieces, pending, stepped, FeedStep(candidate, event).0);
      var output: seq<Event>;
      if candidate == [] {
        if IsSgrMouseStart(event) {
          candidate := candidate + [event];
          candidateStartedAt := Some(now);
          output := [];
        } else {
          output := [event];
        }
      } else {
        candidate := candidate + [event];
        output := DecodeCandidate();
      }
      pending := pending + output;
      pieces := pieces + stepped;
    }

    method Next() returns (event: Option<Event>, ghost piece: Piece)
      requires Valid()
      modifies this
      ensures Valid() && candidate == old(candidate) && candidateStartedAt == old(candidateStartedAt)
      ensures event == if old(pending) == [] then None else Some(old(pending)[0])
      ensures pending == if old(pending) == [] then [] else old(pending)[1..]
      ensures event.None? ==> Held() == old(Held()) && pieces == old(pieces)
      ensures event.Some? ==>
        PieceOk(piece) && piece.event == event.value && pieces == old(pieces)[1..] && piece.raw + Held() == old(Held())
    {
      if pending == [] {
        event, piece := None, Piece(Other(0), []);
      } else {
        event, piece := Some(pending[0]), pieces[0];
        Regroup(pieces[0].raw, RawOf(pieces[1..]), candidate);
        pending, pieces := pending[1..], pieces[1..];
      }
    }

    method PushFront(event: Event, ghost piece: Piece)
      requires Valid() && PieceOk(piece) && piece.event == event
      modifies this
      ensures Valid() && candidate == old(candidate) && candidateStartedAt == old(candidateStartedAt)
      ensures pending == [event] + old(pending) && Held() == piece.raw + old(Held())
    {
      pending := [event] + pending;
      Regroup(piece.raw, RawOf(pieces), candidate);
      assert ([piece] + pieces)[1..] == pieces;
      pieces := [piece] + pieces;
    }

    function PollTimeout(now: nat): (timeout: nat)
      reads this
      ensures candidateStartedAt.None? ==> timeout == TICK
      ensures candidateStartedAt.Some? ==> timeout <= SGR_MOUSE_SEQUENCE_TIMEOUT
      ensures candidateStartedAt.Some? && candidateStartedAt.value <= now ==>
        var deadline := candidateStartedAt.value + SGR_MOUSE_SEQUENCE_TIMEOUT;
        now + timeout == if now < deadline then deadline else now
    {
      if candidateStartedAt.None? then TICK
      else
        var elapsed := now - candidateStartedAt.value;
        if elapsed >= SGR_MOUSE_SEQUENCE_TIMEOUT then 0
        else if elapsed < 0 then SGR_MOUSE_SEQUENCE_TIMEOUT
        else SGR_MOUSE_SEQUENCE_TIMEOUT - elapsed
    }

    method FlushCandidate() returns (flushed: bool)
      requires Valid()
      modifies this
      ensures Valid() && Held() == old(Held()) && candidate == []
      ensures flushed == (old(candidate) != []) && pending == old(pending) + old(candidate)
    {
      if candidate == [] {
        return false;
      }
      RawOfUnchanged(candidate);
      ExplainsAppend(pieces, pending, Unchanged(candidate), candidate);
      RawOfAppend(pieces, Unchanged(candidate));
      assert RawOf(pieces) + candidate + [] == RawOf(pieces) + candidate;
      pending := pending + candidate;
      pieces := pieces + Unchanged(candidate);
      candidate := [];
      candidateStartedAt := None;
      return true;
    }

    method FlushTimedOutCandidate(now: nat) returns (flushed: bool)
      requires Valid()
      modifies this
      ensures Valid() && Held() == old(Held())
      ensures flushed ==
        (old(candidateStartedAt).Some? && now >= old(candidateStartedAt).value + SGR_MOUSE_SEQUENCE_TIMEOUT)
      ensures flushed ==> candidate == [] && pending == old(pending) + old(candidate) && pending != []
      ensures !flushed ==>
        pending == old(pending) && candidate == old(candidate) && pieces == old(pieces)
          && candidateStartedAt == old(candidateStartedAt)
    {
      var timedOut := candidateStartedAt.Some? && now - candidateStartedAt.value >= SGR_MOUSE_SEQUENCE_TIMEOUT;
      flushed := timedOut;
      if timedOut {
        flushed := FlushCandidate();
      }
    }

    method DecodeCandidate() returns (output: seq<Event>)
      requires |candidate| >= 2 && candidateStartedAt.Some?
      modifies this`candidate, this`candidateStartedAt
      ensures (output, candidate) == Resolve(old(candidate))
      ensures candidateStartedAt == if candidate == [] then None else old(candidateStartedAt)
    {
      if |candidate| > MAX_SGR_MOUSE_SEQUENCE_EVENTS {
        output := ReplayCandidate();
        return;
      }
      var chars;
      match KeyChars(candidate[1..]) {
        case None =>
          output := ReplayCandidate();
          return;
        case Some(text) =>
          chars := text;
      }
      var verdict := MatchPrefix(chars);
      if verdict == TooShort {
        return [];
      }
      if verdict == Differs {
        output := ReplayCandidate();
        return;
      }
      var finalChar := chars[|chars| - 1];
      if finalChar !in {'M', 'm'} {
        if forall i :: 2 <= i < |chars| ==> IsDigit(chars[i]) || chars[i] == ';' {
          return [];
        }
        output := ReplayCandidate();
        return;
      }
      match ParseSgrMouse(chars) {
        case None =>
          output := ReplayCandidate();
        case Some(mouse) =>
          candidate := [];
          candidateStartedAt := None;
          output := [Mouse(mouse)];
      }
    }

    method ReplayCandidate() returns (output: seq<Event>)
      modifies this`candidate, this`candidateStartedAt
      ensures output == old(candidate) && candidate == [] && candidateStartedAt == None
    {
      candidateStartedAt := None;
      output := candidate;
      candidate := [];
    }

    /**
     The next decoded event that is available without waiting. `given` is every raw event already accounted for: the
     rest of what the terminal delivered is held here.
     */
    method ReadReady(terminal: Terminal, ghost given: seq<Event>)
      returns (event: Result<Option<Event>>, ghost piece: Piece)
      requires Valid() && Timely(terminal) && given + Held() == terminal.log && Prompt(terminal.calls)
      modifies this, terminal
      ensures Valid() && Timely(terminal)
      ensures Prompt(terminal.calls) && IdleTicks(terminal.calls) == old(IdleTicks(terminal.calls))
      ensures |terminal.calls| >= old(|terminal.calls|) && (event.Err? ==> Failed(terminal.calls))
      ensures event == Ok(None) ==> Idled(terminal.calls, 0) && |terminal.calls| > old(|terminal.calls|)
      ensures old(pending) != [] ==> event == Ok(Some(old(pending)[0])) && unchanged(terminal)
      ensures event.Ok? && event.value.Some? ==>
        PieceOk(piece) && piece.event == event.value.value && given + piece.raw + Held() == terminal.log
      ensures event.Err? || event.value.None? ==> given + Held() == terminal.log
      ensures event == Ok(None) ==> pending == []
    {
      while true
        invariant Valid() && Timely(terminal) && given + Held() == terminal.log
        invariant Prompt(terminal.calls) && IdleTicks(terminal.calls) == old(IdleTicks(terminal.calls))
        invariant |terminal.calls| >= old(|terminal.calls|)
        invariant old(pending) != [] ==> unchanged(this) && unchanged(terminal)
        decreases if pending != [] then 0 else MAX_SGR_MOUSE_SEQUENCE_EVENTS + 1 - |candidate|
      {
        hide Prompt, Failed, Idled, IdleTicks, Explains, PieceOk, FeedStep, StepPieces, Viable;
        var ready;
        ready, piece := Next();
        if ready.Some? {
          Regroup(given, piece.raw, Held());
          return Ok(ready), piece;
        }
        var read := terminal.ReadWithin(0);
        if read.Err? {
          return Err, piece;
        }
        if read.value.None? {
          return Ok(None), piece;
        }
        Regroup(given, Held(), [read.value.value]);
        Feed(read.value.value, terminal.now);
      }
    }
  }

  lemma RawOfSnoc(block: seq<Piece>, p: Piece)
    ensures RawOf(block + [p]) == RawOf(block) + p.raw
  {
    RawOfAppend(block, [p]);
    assert RawOf([p]) == p.raw + RawOf([p][1..]);
  }

  lemma RawOfNothing()
    ensures RawOf([]) == []
  {
  }

  lemma BlockStarts(first: Event, p: Piece)
    requires PieceOk(p) && p.event == first
    ensures BlockOk(first, [p]) && RawOf([p]) == p.raw
    ensures MouseDragButton(first).Some? ==> SameDrag(first, [p])
  {
    hide PieceOk;
    assert [p][1..] == [] && p.raw + [] == p.raw;
  }

  lemma BlockGrows(current: Event, block: seq<Piece>, p: Piece)
    requires BlockOk(current, block) && SameDrag(current, block) && |block| < MAX_COALESCED_MOUSE_DRAGS
    requires PieceOk(p) && MouseDragButton(p.event) == MouseDragButton(current)
    ensures BlockOk(p.event, block + [p]) && SameDrag(p.event, block + [p])
  {
    hide PieceOk;
  }

  /**
   Folds the drags that are already available into the latest one. `block` is what the result stands for; an event
   read one too far comes back as the second component, with its piece.
   */
  method CoalesceMouseDrag(first: Event, decoder: SgrMouseEventDecoder, terminal: Terminal,
    ghost firstPiece: Piece, ghost given: seq<Event>)
    returns (result: Result<(Event, Option<Event>)>, ghost block: seq<Piece>, ghost ahead: Piece)
    requires decoder.Valid() && decoder.Timely(terminal) && PieceOk(firstPiece) && firstPiece.event == first
    requires given + firstPiece.raw + decoder.Held() == terminal.log && Prompt(terminal.calls)
    modifies decoder, terminal
    ensures decoder.Valid() && decoder.Timely(terminal)
    ensures Prompt(terminal.calls) && IdleTicks(terminal.calls) == old(IdleTicks(terminal.calls))
    ensures result.Err? ==> Failed(terminal.calls)
    ensures 1 <= |block| && block[0] == firstPiece && BlockOk(block[|block| - 1].event, block)
    ensures result.Ok? ==> result.value.0 == block[|block| - 1].event
    ensures result.Ok? && result.value.1.Some? ==>
      PieceOk(ahead) && ahead.event == result.value.1.value && MouseDragButton(ahead.event) != MouseDragButton(first)
      && given + RawOf(block) + ahead.raw + decoder.Held() == terminal.log
    ensures result.Err? || result.value.1.None? ==> given + RawOf(block) + decoder.Held() == terminal.log
    ensures result.Ok? && result.value.1.None? && MouseDragButton(first).Some? && |block| < MAX_COALESCED_MOUSE_DRAGS
      ==> decoder.pending == [] && Idled(terminal.calls, 0) && |terminal.calls| > old(|terminal.calls|)
    ensures MouseDragButton(first).None? ==> unchanged(decoder) && unchanged(terminal) && result == Ok((first, None))
  {
    hide PieceOk, BlockOk, SameDrag, RawOf, Prompt, Failed, Idled, IdleTicks;
    block, ahead := [firstPiece], firstPiece;
    BlockStarts(first, firstPiece);
    var current := first;
    var button := MouseDragButton(current);
    if button.None? {
      return Ok((current, None)), block, ahead;
    }
    var coalesced := 1;
    while coalesced < MAX_COALESCED_MOUSE_DRAGS
      invariant 1 <= coalesced == |block| <= MAX_COALESCED_MOUSE_DRAGS
      invariant decoder.Valid() && decoder.Timely(terminal)
      invariant block[0] == firstPiece && block[|block| - 1].event == current
      invariant BlockOk(current, block) && SameDrag(current, block)
      invariant MouseDragButton(current) == button
      invariant given + RawOf(block) + decoder.Held() == terminal.log
      invariant Prompt(terminal.calls) && IdleTicks(terminal.calls) == old(IdleTicks(terminal.calls))
      invariant |terminal.calls| >= old(|terminal.calls|)
    {
      var next;
      next, ahead := decoder.ReadReady(terminal, given + RawOf(block));
      if next.Err? {
        return Err, block, ahead;
      }
      if next.value.None? {
        return Ok((current, None)), block, ahead;
      }
      if MouseDragButton(next.value.value) == button {
        BlockGrows(current, block, ahead);
        current := next.value.value;
        RawOfSnoc(block, ahead);
        Regroup(given, RawOf(block), ahead.raw);
        block := block + [ahead];
        coalesced := coalesced + 1;
      } else {
        return Ok((current, Some(next.value.value))), block, ahead;
      }
    }
    return Ok((current, None)), block, ahead;
  }

  /** Waits for the first decoded event; a candidate whose time is up is replayed rather than waited for. */
  method AwaitEvent(decoder: SgrMouseEventDecoder, terminal: Terminal, ghost given: seq<Event>)
    returns (event: Result<Option<Event>>, ghost piece: Piece)
    requires decoder.Valid() && decoder.Timely(terminal) && given + decoder.Held() == terminal.log
    requires Prompt(terminal.calls)
    modifies decoder, terminal
    ensures decoder.Valid() && decoder.Timely(terminal) && Prompt(terminal.calls)
    // It gives up only after a poll that found nothing for a whole tick.
    ensures event == Ok(None) ==> Idled(terminal.calls, TICK)
    ensures IdleTicks(terminal.calls) == old(IdleTicks(terminal.calls)) + (if event == Ok(None) then 1 else 0)
    ensures event.Err? ==> Failed(terminal.calls)
    ensures old(decoder.pending) != [] ==> event == Ok(Some(old(decoder.pending)[0])) && unchanged(terminal)
    ensures event.Ok? && event.value.Some? ==>
      PieceOk(piece) && piece.event == event.value.value && given + piece.raw + decoder.Held() == terminal.log
    ensures event.Err? || event.value.None? ==> given + decoder.Held() == terminal.log
    ensures event == Ok(None) ==> decoder.pending == [] && decoder.candidate == []
  {
    while true
      invariant decoder.Valid() && decoder.Timely(terminal) && given + decoder.Held() == terminal.log
      invariant Prompt(terminal.calls) && IdleTicks(terminal.calls) == old(IdleTicks(terminal.calls))
      invariant old(decoder.pending) != [] ==> unchanged(decoder) && unchanged(terminal)
      decreases if decoder.pending != [] then 0 else MAX_SGR_MOUSE_SEQUENCE_EVENTS + 1 - |decoder.candidate|
    {
      hide Prompt, Failed, Idled, IdleTicks, Explains, PieceOk, FeedStep, StepPieces, Viable;
      var next;
      next, piece := decoder.Next();
      if next.Some? {
        Regroup(given, piece.raw, decoder.Held());
        return Ok(next), piece;
      }
      var read := terminal.ReadWithin(decoder.PollTimeout(terminal.now));
      if read.Err? {
        return Err, piece;
      }
      if read.value.None? {
        var flushed := decoder.FlushTimedOutCandidate(terminal.now);
        if !flushed {
          return Ok(None), piece;
        }
      } else {
        Regroup(given, decoder.Held(), [read.value.value]);
        decoder.Feed(read.value.value, terminal.now);
      }
    }
  }

  /**
   One poll of the event loop. `block` is what the delivered event stands for; on an error it is the run of drags that
   was being folded when the terminal failed, which is all that is lost.
   */
  method PollInputEvent(decoder: SgrMouseEventDecoder, terminal: Terminal, ghost given: seq<Event>)
    returns (result: Result<Option<Event>>, ghost block: seq<Piece>)
    requires decoder.Valid() && decoder.Timely(terminal) && given + decoder.Held() == terminal.log
    requires Prompt(terminal.calls)
    modifies decoder, terminal
    ensures decoder.Valid() && decoder.Timely(terminal) && Prompt(terminal.calls)
    ensures IdleTicks(terminal.calls) == old(IdleTicks(terminal.calls)) + (if result == Ok(None) then 1 else 0)
    ensures result.Err? ==> Failed(terminal.calls)
    ensures given + RawOf(block) + decoder.Held() == terminal.log
    ensures result.Ok? && result.value.Some? ==> BlockOk(result.value.value, block)
    // A poll that delivers nothing leaves nothing behind: a half-read sequence is never held past its timeout.
    ensures result == Ok(None) ==> block == [] && decoder.pending == [] && decoder.candidate == []
    ensures result.Err? ==>
      block == [] || (BlockOk(block[|block| - 1].event, block) && MouseDragButton(block[0].event).Some?)
    // Only drags of one button are folded, and folding stops only at its bound, at a different event, or when nothing
    // more is ready.
    ensures result.Ok? && result.value.Some? && |block| > 1 ==>
      IsDrag(result.value.value) && forall p | p in block :: LikeDrag(p.event, result.value.value)
    ensures result.Ok? && result.value.Some? && IsDrag(result.value.value) ==>
      || |block| == MAX_COALESCED_MOUSE_DRAGS || Idled(terminal.calls, 0)
      || (decoder.pending != [] && !LikeDrag(decoder.pending[0], result.value.value))
  {
    hide PieceOk, RawOf, Explains, Prompt, Failed, Idled, IdleTicks;
    RawOfNothing();
    assert given + [] == given;
    var event;
    ghost var piece;
    event, piece := AwaitEvent(decoder, terminal, given);
    if event.Err? {
      return Err, [];
    }
    if event.value.None? {
      return Ok(None), [];
    }
    var folded;
    ghost var ahead;
    folded, block, ahead := CoalesceMouseDrag(event.value.value, decoder, terminal, piece, given);
    if folded.Err? {
      return Err, block;
    }
    if folded.value.1.Some? {
      Regroup(given + RawOf(block), ahead.raw, decoder.Held());
      decoder.PushFront(folded.value.1.value, ahead);
    }
    return Ok(Some(folded.value.0)), block;
  }

  function RawOfBlocks(blocks: seq<seq<Piece>>): seq<Event> {
    if blocks == [] then [] else RawOfBlocks(blocks[..|blocks| - 1]) + RawOf(blocks[|blocks| - 1])
  }

  /**
   A whole run of the event loop's input: any number of polls, until the terminal fails. The raw events read are, in
   order, those the delivered events stand for, then the drags in hand when the terminal failed, then those still
   held. Whatever is ready is read, and every poll either delivers an event or finds nothing for a whole tick.
   */
  method RunInput(polls: nat, terminal: Terminal)
    returns (decoder: SgrMouseEventDecoder, events: seq<Event>, failed: bool, ghost blocks: seq<seq<Piece>>,
      ghost inHand: seq<Piece>)
    requires terminal.log == [] && terminal.calls == []
    modifies terminal
    ensures Prompt(terminal.calls)
    ensures if failed then Failed(terminal.calls) else |events| + IdleTicks(terminal.calls) == polls
    ensures |events| == |blocks| && forall i | 0 <= i < |events| :: BlockOk(events[i], blocks[i])
    ensures RawOfBlocks(blocks) + RawOf(inHand) + decoder.Held() == terminal.log
    ensures !failed ==> inHand == []
    ensures decoder.Valid()
  {
    hide BlockOk, RawOf, Failed;
    decoder := new SgrMouseEventDecoder();
    RawOfNothing();
    assert RawOfBlocks([]) == [];
    events, failed, blocks, inHand := [], false, [], [];
    var polled := 0;
    while polled < polls && !failed
      invariant fresh(decoder) && decoder.Valid() && decoder.Timely(terminal)
      invariant |events| == |blocks| && forall i | 0 <= i < |events| :: BlockOk(events[i], blocks[i])
      invariant !failed ==> inHand == []
      invariant polled <= polls && Prompt(terminal.calls)
      invariant if failed then Failed(terminal.calls) else |events| + IdleTicks(terminal.calls) == polled
      invariant RawOfBlocks(blocks) + RawOf(inHand) + decoder.Held() == terminal.log
      decreases if failed then 0 else 1, polls - polled
    {
      assert RawOfBlocks(blocks) + [] == RawOfBlocks(blocks);
      var result;
      ghost var block;
      result, block := PollInputEvent(decoder, terminal, RawOfBlocks(blocks));
      if result.Err? {
        failed, inHand := true, block;
      } else if result.value.Some? {
        events := events + [result.value.value];
        assert (blocks + [block])[..|blocks|] == blocks;
        blocks := blocks + [block];
        assert RawOfBlocks(blocks) + [] == RawOfBlocks(blocks);
      }
      polled := polled + 1;
    }
  }

}
