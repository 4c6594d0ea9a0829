/**
 The xterm SGR 1006 mouse protocol as `backend/apps/omnescode/src/app.rs` reads it:
 terminal events, the sequence parser, and the encoder a terminal uses.
 */
module SgrMouse {
  import opened Wrappers
  import opened Fields

  type U16 = n: nat | n < 0x1_0000

  datatype MouseButton = Left | Middle | Right

  datatype MouseEventKind =
    | Down(button: MouseButton)
    | Up(button: MouseButton)
    | Drag(button: MouseButton)
    | Moved
    | ScrollUp
    | ScrollDown
    | ScrollLeft
    | ScrollRight

  datatype KeyModifiers = KeyModifiers(shift: bool, alt: bool, control: bool, superKey: bool, hyper: bool, meta: bool)

  const NO_MODIFIERS := KeyModifiers(false, false, false, false, false, false)

  datatype MouseEvent = MouseEvent(kind: MouseEventKind, column: U16, row: U16, modifiers: KeyModifiers)

  datatype KeyCode = Esc | Char(character: char) | OtherCode(code: nat)

  datatype KeyEventKind = Press | Repeat | Release

  /** `Other` covers paste, focus and resize events, which the decoder never inspects. */
  datatype Event =
    | Key(code: KeyCode, modifiers: KeyModifiers, kind: KeyEventKind)
    | Mouse(mouse: MouseEvent)
    | Other(payload: nat)

  const MAX_SGR_MOUSE_SEQUENCE_EVENTS: nat := 32

  predicate IsSgrMouseStart(event: Event) {
    event.Key? && event.code == Esc && event.kind == Press && event.modifiers == NO_MODIFIERS
  }

  function KeyEventChar(event: Event): Option<char> {
    if event.Key? && event.code.Char? && event.kind == Press then Some(event.code.character) else None
  }

  /** The characters of a run of key presses, or None when one event is not a character press. */
  function KeyChars(events: seq<Event>): Option<string> {
    if events == [] then Some([])
    else
      match (KeyEventChar(events[0]), KeyChars(events[1..]))
      case (Some(c), Some(rest)) => Some([c] + rest)
      case _ => None
  }

  // ----- Decimal fields -----

  predicate IsDigit(c: char) { '0' <= c <= '9' }

  predicate AllDigits(s: string) { forall i :: 0 <= i < |s| ==> IsDigit(s[i]) }

  function DecimalValue(s: string): nat
    requires AllDigits(s)
  {
    if s == [] then 0 else 10 * DecimalValue(s[..|s| - 1]) + (s[|s| - 1] - '0') as nat
  }

  /** Rust's unsigned `str::parse`: an optional `+`, at least one digit, no overflow. */
  function ParseUnsigned(s: string, max: nat): Option<nat> {
    var digits := if |s| > 1 && s[0] == '+' then s[1..] else s;
    if digits != [] && AllDigits(digits) && DecimalValue(digits) <= max then Some(DecimalValue(digits)) else None
  }

  /** A number is its digits, after a plus sign or not. */
  lemma UnsignedIff(s: string, max: nat, n: nat)
    ensures ParseUnsigned(s, max) == Some(n) <==>
      exists digits: string :: s in {digits, "+" + digits} && Digits(digits, max, n)
  {
    hide DecimalValue;
    if ParseUnsigned(s, max) == Some(n) {
      var digits := if |s| > 1 && s[0] == '+' then s[1..] else s;
      if |s| > 1 && s[0] == '+' {
        assert s == "+" + digits;
      }
      assert s in {digits, "+" + digits} && Digits(digits, max, n);
    }
    if digits: string :| s in {digits, "+" + digits} && Digits(digits, max, n) {
      assert IsDigit(digits[0]);
      if s == "+" + digits {
        assert s[1..] == digits;
      }
    }
  }

  predicate Digits(s: string, max: nat, n: nat) { s != [] && AllDigits(s) && DecimalValue(s) == n <= max }

  function Decimal(n: nat): (s: string)
    ensures s != [] && AllDigits(s) && DecimalValue(s) == n
    ensures forall k: nat | n < Pow10(k) && k > 0 :: |s| <= k
  {
    var d := ['0' + (n % 10) as char];
    if n < 10 then d
    else
      var s := Decimal(n / 10) + d;
      assert s[..|s| - 1] == Decimal(n / 10);
      assert forall k: nat | n < Pow10(k) && k > 1 :: n / 10 < Pow10(k - 1);
      s
  }

  function Pow10(k: nat): nat { if k == 0 then 1 else 10 * Pow10(k - 1) }

  // ----- The parser -----

  function ParseSgrMouseButton(cb: bv8): Option<(MouseEventKind, KeyModifiers)> {
    var buttonNumber := (cb & 0x03) | ((cb & 0xC0) >> 4);
    var dragging := cb & 0x20 == 0x20;
    var modifiers := NO_MODIFIERS.(shift := cb & 0x04 != 0,
                                   alt := cb & 0x08 != 0,
                                   control := cb & 0x10 != 0);
    if buttonNumber == 0 then Some((if dragging then Drag(Left) else Down(Left), modifiers))
    else if buttonNumber == 1 then Some((if dragging then Drag(Middle) else Down(Middle), modifiers))
    else if buttonNumber == 2 then Some((if dragging then Drag(Right) else Down(Right), modifiers))
    else if buttonNumber == 3 then Some((if dragging then Moved else Up(Left), modifiers))
    else if buttonNumber == 4 then Some((if dragging then Moved else ScrollUp, modifiers))
    else if buttonNumber == 5 then Some((if dragging then Moved else ScrollDown, modifiers))
    else if buttonNumber == 6 && !dragging then Some((ScrollLeft, modifiers))
    else if buttonNumber == 7 && !dragging then Some((ScrollRight, modifiers))
    else None
  }

  function ButtonMeaning(cb: nat): Option<(MouseEventKind, KeyModifiers)>
    requires cb <= 255
  {
    ParseSgrMouseButton(cb as bv8)
  }

  /** The three decimal fields of a report, and the final `M` or `m`. */
  function ParseFields(f0: string, f1: string, f2: string, finalChar: char): Option<MouseEvent> {
    match (ParseUnsigned(f0, 255), ParseUnsigned(f1, 65535), ParseUnsigned(f2, 65535))
    case (Some(cb), Some(column), Some(row)) =>
      if column == 0 || row == 0 then None
      else (
        match ButtonMeaning(cb)
        case None => None
        case Some((kind, modifiers)) =>
          var kind' := if finalChar == 'm' && kind.Down? then Up(kind.button) else kind;
          Some(MouseEvent(kind', column - 1, row - 1, modifiers))
      )
    case _ => None
  }

  /** The characters between `[<` and the final character, less one trailing separator. */
  function Payload(chars: string): string
    requires |chars| >= 3
  {
    var raw := chars[2..|chars| - 1];
    if raw != [] && raw[|raw| - 1] == ';' then raw[..|raw| - 1] else raw
  }

  function ParseSgrMouse(chars: string): Option<MouseEvent>
    requires |chars| >= 3
  {
    var fields := SplitOn(Payload(chars), ';');
    if |fields| != 3 || fields[0] == [] || fields[1] == [] || fields[2] == [] then None
    else ParseFields(fields[0], fields[1], fields[2], chars[|chars| - 1])
  }

  // ----- What a terminal writes -----

  function ButtonBits(button: MouseButton): bv8 {
    match button case Left => 0 case Middle => 1 case Right => 2
  }

  function KindBits(kind: MouseEventKind): bv8 {
    match kind
    case Down(b) => ButtonBits(b)
    case Up(b) => ButtonBits(b)
    case Drag(b) => 32 | ButtonBits(b)
    case Moved => 35
    case ScrollUp => 64
    case ScrollDown => 65
    case ScrollLeft => 66
    case ScrollRight => 67
  }

  function ModifierBits(m: KeyModifiers): bv8 {
    (if m.shift then 4 else 0) | (if m.alt then 8 else 0) | (if m.control then 16 else 0)
  }

  function ButtonCode(kind: MouseEventKind, modifiers: KeyModifiers): bv8 {
    KindBits(kind) | ModifierBits(modifiers)
  }

  lemma ButtonCodeParses(kind: MouseEventKind, m: KeyModifiers)
    requires !m.superKey && !m.hyper && !m.meta
    ensures ParseSgrMouseButton(ButtonCode(kind, m)) == Some((if kind.Up? then Down(kind.button) else kind, m))
  {
    var cb := ButtonCode(kind, m);
    assert ButtonCode(kind, m) & 4 != 0 <==> m.shift;
    assert ButtonCode(kind, m) & 8 != 0 <==> m.alt;
    assert ButtonCode(kind, m) & 16 != 0 <==> m.control;
    assert cb & 3 == KindBits(kind) & 3;
    assert cb & 0xC0 == KindBits(kind) & 0xC0;
    assert cb & 32 == KindBits(kind) & 32;
  }

  /** A byte is no button exactly with its highest bit set, or as a horizontal scroll that moves. */
  lemma NoOtherButtons(cb: bv8)
    ensures ParseSgrMouseButton(cb).None? <==> cb & 0x80 == 0x80 || cb & 0x62 == 0x62
  {
  }

  /** A mouse event that SGR 1006 can carry: coordinates are one-based 16-bit fields on the wire. */
  predicate Encodable(m: MouseEvent) {
    m.column < 65535 && m.row < 65535 && !m.modifiers.superKey && !m.modifiers.hyper && !m.modifiers.meta
  }

  /** The characters after the escape byte. */
  function SgrText(m: MouseEvent): string {
    Report(CodeText(m), Decimal(m.column + 1), Decimal(m.row + 1)) + [if m.kind.Up? then 'm' else 'M']
  }

  /** The wire grammar; the separator before the final character is optional. */
  predicate Spells(chars: string, f0: string, f1: string, f2: string, m: MouseEvent) {
    && |chars| >= 3
    && var final := chars[|chars| - 1];
    && final in {'M', 'm'}
    && (chars == Report(f0, f1, f2) + [final] || chars == Report(f0, f1, f2) + ";" + [final])
    && ParseFields(f0, f1, f2, final) == Some(m)
  }

  function Report(f0: string, f1: string, f2: string): string {
    "[<" + Body(f0, f1, f2)
  }

  function Body(f0: string, f1: string, f2: string): string {
    f0 + ";" + f1 + ";" + f2
  }

  lemma UnsignedHasNoSeparator(f: string, max: nat)
    requires ParseUnsigned(f, max).Some?
    ensures f != [] && ';' !in f
  {
    if |f| > 1 && f[0] == '+' {
      assert f == ['+'] + f[1..];
    }
  }

  lemma {:induction false} FieldsJoin(f0: string, f1: string, f2: string)
    ensures Join([f0, f1, f2], ';') == Body(f0, f1, f2)
  {
    assert [f0, f1, f2][1..] == [f1, f2] && [f1, f2][1..] == [f2];
    assert Join([f1, f2], ';') == f1 + [';'] + f2;
    assert Body(f0, f1, f2) == f0 + [';'] + (f1 + [';'] + f2);
  }

  lemma {:induction false} FieldsSplit(f0: string, f1: string, f2: string)
    requires ';' !in f0 && ';' !in f1 && ';' !in f2
    ensures SplitOn(Body(f0, f1, f2), ';') == [f0, f1, f2]
  {
    hide SplitOn;
    SplitOnField(f2, ';', []);
    SplitOnField(f1, ';', f2);
    SplitOnField(f0, ';', f1 + [';'] + f2);
    assert Body(f0, f1, f2) == f0 + [';'] + (f1 + [';'] + f2);
  }

  /** One trailing separator is dropped, and only when it is there. */
  lemma PayloadOf(chars: string, body: string, final: char)
    requires body != [] && body[|body| - 1] != ';'
    ensures chars == "[<" + body + [final] || chars == "[<" + body + ";" + [final]
      ==> |chars| >= 3 && Payload(chars) == body
  {
    if chars == "[<" + body + [final] {
      assert chars[2..|chars| - 1] == body;
    } else if chars == "[<" + body + ";" + [final] {
      assert chars[2..|chars| - 1] == body + ";";
      assert (body + ";")[..|body|] == body;
    }
  }

  lemma PayloadSpelled(chars: string)
    requires |chars| >= 3 && chars[..2] == "[<"
    ensures var final := chars[|chars| - 1];
      chars == "[<" + Payload(chars) + [final] || chars == "[<" + Payload(chars) + ";" + [final]
  {
    var raw := chars[2..|chars| - 1];
    assert chars == "[<" + raw + [chars[|chars| - 1]];
    assert raw == Payload(chars) || raw == Payload(chars) + ";";
  }

  lemma {:induction false} SpelledParses(chars: string, f0: string, f1: string, f2: string, m: MouseEvent)
    requires Spells(chars, f0, f1, f2, m)
    ensures ParseSgrMouse(chars) == Some(m)
  {
    hide SplitOn, Payload, ParseFields;
    FieldsPlain(f0, f1, f2, chars[|chars| - 1]);
    var body := Body(f0, f1, f2);
    assert body[|body| - 1] == f2[|f2| - 1] != ';';
    PayloadOf(chars, body, chars[|chars| - 1]);
    FieldsSplit(f0, f1, f2);
  }

  lemma FieldsPlain(f0: string, f1: string, f2: string, final: char)
    requires ParseFields(f0, f1, f2, final).Some?
    ensures f0 != [] && f1 != [] && f2 != [] && ';' !in f0 && ';' !in f1 && ';' !in f2
  {
    UnsignedHasNoSeparator(f0, 255);
    UnsignedHasNoSeparator(f1, 65535);
    UnsignedHasNoSeparator(f2, 65535);
  }

  /** The parser accepts exactly the spellings of the grammar, and reads the event they spell. */
  lemma {:induction false} ParseSgrMouseIffSpelled(chars: string, m: MouseEvent)
    requires |chars| >= 3 && chars[..2] == "[<" && chars[|chars| - 1] in {'M', 'm'}
    ensures ParseSgrMouse(chars) == Some(m) <==> exists f0, f1, f2 :: Spells(chars, f0, f1, f2, m)
  {
    if ParseSgrMouse(chars) == Some(m) {
      var fields := SplitOn(Payload(chars), ';');
      assert fields == [fields[0], fields[1], fields[2]];
      JoinSplit(Payload(chars), ';');
      FieldsJoin(fields[0], fields[1], fields[2]);
      PayloadSpelled(chars);
      assert Spells(chars, fields[0], fields[1], fields[2], m);
    }
    if f0, f1, f2 :| Spells(chars, f0, f1, f2, m) {
      SpelledParses(chars, f0, f1, f2, m);
    }
  }

  lemma DecimalParses(n: nat, max: nat)
    requires n <= max
    ensures ParseUnsigned(Decimal(n), max) == Some(n)
  {
  }

  lemma DecimalIsShort(n: nat)
    requires n <= 65535
    ensures |Decimal(n)| <= 5
  {
    assert Pow10(5) == 100_000 by { assert Pow10(3) == 1000; }
    assert n < Pow10(5);
  }

  function CodeNumber(m: MouseEvent): (code: nat)
    ensures code <= 255
  {
    ButtonCode(m.kind, m.modifiers) as nat
  }

  function CodeText(m: MouseEvent): string { Decimal(CodeNumber(m)) }

  lemma CodeMeaning(m: MouseEvent)
    requires Encodable(m)
    ensures ButtonMeaning(CodeNumber(m)) == Some((if m.kind.Up? then Down(m.kind.button) else m.kind, m.modifiers))
  {
    ButtonCodeParses(m.kind, m.modifiers);
    assert (ButtonCode(m.kind, m.modifiers) as nat) as bv8 == ButtonCode(m.kind, m.modifiers);
  }

  lemma FieldsMean(f0: string, f1: string, f2: string, code: nat, m: MouseEvent, final: char)
    requires code <= 255 && m.column < 65535 && m.row < 65535
    requires ParseUnsigned(f0, 255) == Some(code)
    requires ParseUnsigned(f1, 65535) == Some(m.column + 1) && ParseUnsigned(f2, 65535) == Some(m.row + 1)
    requires ButtonMeaning(code) == Some((if m.kind.Up? then Down(m.kind.button) else m.kind, m.modifiers))
    requires final == (if m.kind.Up? then 'm' else 'M')
    ensures ParseFields(f0, f1, f2, final) == Some(m)
  {
  }

  lemma FieldsParse(m: MouseEvent, final: char)
    requires Encodable(m) && final == (if m.kind.Up? then 'm' else 'M')
    ensures ParseFields(CodeText(m), Decimal(m.column + 1), Decimal(m.row + 1), final) == Some(m)
  {
    CodeMeaning(m);
    DecimalParses(CodeNumber(m), 255);
    DecimalParses(m.column + 1, 65535);
    DecimalParses(m.row + 1, 65535);
    FieldsMean(CodeText(m), Decimal(m.column + 1), Decimal(m.row + 1), CodeNumber(m), m, final);
  }

  lemma SgrTextShape(m: MouseEvent)
    requires Encodable(m)
    ensures 3 <= |SgrText(m)| < MAX_SGR_MOUSE_SEQUENCE_EVENTS && SgrText(m)[..2] == "[<"
    ensures SgrText(m)[|SgrText(m)| - 1] == if m.kind.Up? then 'm' else 'M'
  {
    DecimalIsShort(CodeNumber(m));
    DecimalIsShort(m.column + 1);
    DecimalIsShort(m.row + 1);
  }

  /** What a terminal writes for an event parses to that event. */
  lemma SgrTextParses(m: MouseEvent)
    requires Encodable(m)
    ensures 3 <= |SgrText(m)| && ParseSgrMouse(SgrText(m)) == Some(m)
  {
    var final := if m.kind.Up? then 'm' else 'M';
    var f0, f1, f2 := CodeText(m), Decimal(m.column + 1), Decimal(m.row + 1);
    FieldsParse(m, final);
    SgrTextShape(m);
    assert SgrText(m) == Report(f0, f1, f2) + [final];
    SpelledParses(SgrText(m), f0, f1, f2, m);
  }

  // ----- Reassembly -----

  /** A candidate that may still grow into a sequence. */
  predicate Viable(candidate: seq<Event>) {
    && 0 < |candidate| <= MAX_SGR_MOUSE_SEQUENCE_EVENTS
    && KeyChars(candidate[1..]).Some?
    && ViableText(KeyChars(candidate[1..]).value)
  }

  predicate ViableText(chars: string) {
    || chars == "" || chars == "["
    || (|chars| >= 2 && chars[..2] == "[<" && forall i :: 2 <= i < |chars| ==> IsDigit(chars[i]) || chars[i] == ';')
  }

  /** The event a complete sequence spells, if the candidate is one. */
  function CompletedSequence(candidate: seq<Event>): Option<MouseEvent> {
    if 0 < |candidate| <= MAX_SGR_MOUSE_SEQUENCE_EVENTS && KeyChars(candidate[1..]).Some? then
      var chars := KeyChars(candidate[1..]).value;
      if |chars| >= 3 && chars[..2] == "[<" && chars[|chars| - 1] in {'M', 'm'} then ParseSgrMouse(chars) else None
    else None
  }

  /** A wrong character in either of the first two places rules a sequence out. */
  lemma WrongPrefix(chars: string, index: nat)
    requires index < 2 && index < |chars| && chars[..index] == "[<"[..index] && chars[index] != "[<"[index]
    ensures !ViableText(chars)
    ensures |chars| >= 2 ==> chars[..2] != "[<"
  {
    if |chars| >= 2 {
      assert chars[..2][index] == chars[index];
    }
  }

  /** What the decoder emits and what it keeps, for a candidate that has just grown by one event. */
  function Resolve(candidate: seq<Event>): (seq<Event>, seq<Event>) {
    if Viable(candidate) then ([], candidate)
    else
      match CompletedSequence(candidate)
      case Some(m) => ([Mouse(m)], [])
      case None => (candidate, [])
  }

  function FeedStep(candidate: seq<Event>, event: Event): (seq<Event>, seq<Event>) {
    if candidate != [] then Resolve(candidate + [event])
    else if IsSgrMouseStart(event) then ([], [event])
    else ([event], [])
  }

  /** Only a plain press of the escape key starts a candidate; any other event passes an idle decoder at once. */
  lemma OnlyEscapeStarts(event: Event)
    ensures var escape := Key(Esc, KeyModifiers(false, false, false, false, false, false), Press);
      FeedStep([], event) == if event == escape then ([], [event]) else ([event], [])
  {
  }

  /** Feeding a whole run of events with no timeout in between. */
  function FeedAll(candidate: seq<Event>, events: seq<Event>): (seq<Event>, seq<Event>)
    decreases |events|
  {
    if events == [] then ([], candidate)
    else
      var (out, kept) := FeedStep(candidate, events[0]);
      var (later, last) := FeedAll(kept, events[1..]);
      (out + later, last)
  }

  function KeyPresses(text: string, modifiers: KeyModifiers): (events: seq<Event>)
    ensures |events| == |text|
  {
    seq(|text|, i requires 0 <= i < |text| => Key(Char(text[i]), modifiers, Press))
  }

  /** A mouse event as crossterm exposes it when a read split the sequence at the escape byte. */
  function SplitSequence(m: MouseEvent, modifiers: KeyModifiers): seq<Event> {
    [Key(Esc, NO_MODIFIERS, Press)] + KeyPresses(SgrText(m), modifiers)
  }

  lemma {:induction false} KeyCharsOfPresses(text: string, modifiers: KeyModifiers)
    ensures KeyChars(KeyPresses(text, modifiers)) == Some(text)
  {
    if text != [] {
      assert KeyPresses(text, modifiers)[1..] == KeyPresses(text[1..], modifiers);
      KeyCharsOfPresses(text[1..], modifiers);
      assert text == [text[0]] + text[1..];
    }
  }

  lemma SgrTextPrefixesViable(m: MouseEvent, k: nat)
    requires Encodable(m) && k < |SgrText(m)|
    ensures ViableText(SgrText(m)[..k])
  {
    var text := SgrText(m);
    assert text[0] == '[' && text[1] == '<';
    if k >= 2 {
      assert text[..k][..2] == "[<";
      forall i | 2 <= i < k ensures IsDigit(text[..k][i]) || text[..k][i] == ';' {
        assert text[..k][i] == text[i];
      }
    }
  }

  lemma {:induction false} FeedAllSnoc(candidate: seq<Event>, events: seq<Event>, e: Event)
    ensures var fed := FeedAll(candidate, events);
      var last := FeedStep(fed.1, e);
      FeedAll(candidate, events + [e]) == (fed.0 + last.0, last.1)
    decreases |events|
  {
    if events == [] {
      assert events + [e] == [e] && [e][1..] == [];
      var last := FeedStep(candidate, e);
      assert FeedAll(last.1, []) == ([], last.1);
      assert last.0 + [] == last.0 && [] + last.0 == last.0;
    } else {
      var first := FeedStep(candidate, events[0]);
      FeedAllSnoc(first.1, events[1..], e);
      assert (events + [e])[1..] == events[1..] + [e];
      var fed := FeedAll(first.1, events[1..]);
      var last := FeedStep(fed.1, e);
      assert first.0 + (fed.0 + last.0) == (first.0 + fed.0) + last.0;
    }
  }

  lemma SplitChars(m: MouseEvent, modifiers: KeyModifiers, k: nat)
    requires k <= |SgrText(m)|
    ensures KeyChars(SplitSequence(m, modifiers)[..k + 1][1..]) == Some(SgrText(m)[..k])
  {
    KeyCharsOfPresses(SgrText(m)[..k], modifiers);
    assert SplitSequence(m, modifiers)[..k + 1][1..] == KeyPresses(SgrText(m)[..k], modifiers);
  }

  lemma ResolveComplete(m: MouseEvent, candidate: seq<Event>)
    requires Encodable(m) && |candidate| == |SgrText(m)| + 1
    requires KeyChars(candidate[1..]) == Some(SgrText(m))
    ensures Resolve(candidate) == ([Mouse(m)], [])
  {
    SgrTextShape(m);
    SgrTextParses(m);
    var text := SgrText(m);
    assert !IsDigit(text[|text| - 1]) && text[|text| - 1] != ';';
    assert !ViableText(text);
  }

  lemma FeedStart(start: Event)
    requires IsSgrMouseStart(start)
    ensures FeedAll([], [start]) == ([], [start])
  {
    var none: seq<Event> := [];
    FeedAllSnoc(none, none, start);
    assert none + [start] == [start];
    assert none + none == none;
    assert FeedAll(none, none) == (none, none);
  }

  /** While everything read so far is pending, the next event only has to be resolved. */
  lemma FeedNext(all: seq<Event>, k: nat)
    requires 0 < k < |all| && FeedAll([], all[..k]) == ([], all[..k])
    ensures FeedAll([], all[..k + 1]) == Resolve(all[..k + 1])
  {
    FeedAllSnoc([], all[..k], all[k]);
    assert all[..k] + [all[k]] == all[..k + 1];
    assert [] + Resolve(all[..k + 1]).0 == Resolve(all[..k + 1]).0;
  }

  lemma {:induction false} FeedSplitPrefix(m: MouseEvent, modifiers: KeyModifiers, k: nat)
    requires Encodable(m) && k < |SgrText(m)|
    ensures FeedAll([], SplitSequence(m, modifiers)[..k + 1]) == ([], SplitSequence(m, modifiers)[..k + 1])
  {
    var all := SplitSequence(m, modifiers);
    if k == 0 {
      assert all[..1] == [all[0]];
      FeedStart(all[0]);
    } else {
      FeedSplitPrefix(m, modifiers, k - 1);
      FeedNext(all, k);
      SplitChars(m, modifiers, k);
      SgrTextPrefixesViable(m, k);
      SgrTextShape(m);
      assert Viable(all[..k + 1]);
    }
  }

  lemma FeedSplitWhole(m: MouseEvent, modifiers: KeyModifiers)
    requires Encodable(m)
    ensures FeedAll([], SplitSequence(m, modifiers)) == ([Mouse(m)], [])
  {
    var all, k := SplitSequence(m, modifiers), |SgrText(m)|;
    SgrTextShape(m);
    FeedSplitPrefix(m, modifiers, k - 1);
    FeedNext(all, k);
    assert all == all[..k + 1];
    SplitChars(m, modifiers, k);
    assert SgrText(m)[..k] == SgrText(m);
    ResolveComplete(m, all);
  }

  /**
   Feeding the split form of any encodable event to an idle decoder yields exactly that event, and every proper
   prefix yields nothing and stays pending in full.
   */
  lemma SplitSequenceRoundTrip(m: MouseEvent, modifiers: KeyModifiers)
    requires Encodable(m)
    ensures FeedAll([], SplitSequence(m, modifiers)) == ([Mouse(m)], [])
    ensures forall k: nat | k < |SplitSequence(m, modifiers)| ::
      FeedAll([], SplitSequence(m, modifiers)[..k]) == ([], SplitSequence(m, modifiers)[..k])
  {
    FeedSplitWhole(m, modifiers);
    var all := SplitSequence(m, modifiers);
    forall k: nat | k < |all| ensures FeedAll([], all[..k]) == ([], all[..k]) {
      if k > 0 {
        FeedSplitPrefix(m, modifiers, k - 1);
      }
    }
  }

}
