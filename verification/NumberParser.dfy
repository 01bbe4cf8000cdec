/** The byte-at-a-time number automaton (boss/bencode/src/number.rs). */
module NumberParser {
  import opened Bytes
  import opened Positional
  import opened Decimal

  datatype NumberError = LeadingZero | NegativeZero | InvalidByte | Overflow | Truncated | Trailing

  datatype State = Initial | Negation | Zero | Digit | NoRoom | Final | Failed(error: NumberError)

  const MINUS: byte := 45
  const ROOM: nat := 20

  /** State and collected characters. */
  datatype Automaton = Automaton(state: State, text: seq<byte>)

  function Step(a: Automaton, val: byte, stop: byte): Automaton
  {
    match a.state
    case Initial =>
      if val == MINUS then Automaton(Negation, a.text + [val])
      else if val == 48 then Automaton(Zero, a.text + [val])
      else if IsDigit(val) then Automaton(Digit, a.text + [val])
      else a.(state := Failed(InvalidByte))
    case Negation =>
      if val == 48 then a.(state := Failed(NegativeZero))
      else if IsDigit(val) then Automaton(Digit, a.text + [val])
      else a.(state := Failed(InvalidByte))
    case Zero =>
      a.(state := if val == stop then Final else if IsDigit(val) then Failed(LeadingZero) else Failed(InvalidByte))
    case Digit =>
      if val == stop then a.(state := Final)
      else if IsDigit(val) then Automaton(if |a.text| + 1 < ROOM then Digit else NoRoom, a.text + [val])
      else a.(state := Failed(InvalidByte))
    case NoRoom =>
      a.(state := if val == stop then Final else if IsDigit(val) then Failed(Overflow) else Failed(InvalidByte))
    case Final => a.(state := Failed(Trailing))
    case Failed(_) => a
  }

  function Fed(s: seq<byte>, stop: byte): Automaton
  {
    if s == [] then Automaton(Initial, []) else Step(Fed(s[..|s| - 1], stop), s[|s| - 1], stop)
  }

  // ---- The parser as it runs

  class Parser {
    const stop: byte
    const buf: array<byte>
    var len: nat
    var state: State
    // What has been pushed so far.
    ghost var input: seq<byte>

    ghost predicate Valid()
      reads this, buf
    {
      && buf.Length == ROOM && len <= ROOM
      && Fed(input, stop) == Automaton(state, buf[..len])
      && (state.Initial? ==> len == 0) && (state.Negation? ==> len == 1) && (state.Digit? ==> len < ROOM)
    }

    constructor (stop: byte)
      ensures Valid() && this.stop == stop && input == [] && fresh(buf)
    {
      this.stop := stop;
      buf := new byte[ROOM](_ => 0);
      len, state, input := 0, Initial, [];
    }

    /** `SmallVec20::push`: true iff at least one more byte can be pushed. It never overflows. */
    method Push(val: byte) returns (room: bool)
      requires buf.Length == ROOM && len < ROOM
      modifies this`len, buf
      ensures len == old(len) + 1 && buf[..len] == old(buf[..len]) + [val]
      ensures room <==> len < ROOM
    {
      buf[len] := val;
      len := len + 1;
      room := len < buf.Length;
    }

    /** The transition; the asserted pushes always leave room. */
    method Advance(val: byte)
      requires buf.Length == ROOM && len <= ROOM
      requires (state.Initial? ==> len == 0) && (state.Negation? ==> len == 1) && (state.Digit? ==> len < ROOM)
      modifies this`len, this`state, buf
      ensures len <= ROOM
      ensures Automaton(state, buf[..len]) == old(Step(Automaton(state, buf[..len]), val, stop))
      ensures (state.Initial? ==> len == 0) && (state.Negation? ==> len == 1) && (state.Digit? ==> len < ROOM)
    {
      match state {
        case Initial =>
          if val == MINUS {
            var _ := Push(val);
            state := Negation;
          } else if val == 48 {
            var _ := Push(val);
            state := Zero;
          } else if IsDigit(val) {
            var room := Push(val);
            assert room;
            state := Digit;
          } else {
            state := Failed(InvalidByte);
          }
        case Negation =>
          if val == 48 {
            state := Failed(NegativeZero);
          } else if IsDigit(val) {
            var room := Push(val);
            assert room;
            state := Digit;
          } else {
            state := Failed(InvalidByte);
          }
        case Zero =>
          state := if val == stop then Final else if IsDigit(val) then Failed(LeadingZero) else Failed(InvalidByte);
        case Digit =>
          if val == stop {
            state := Final;
          } else if IsDigit(val) {
            var room := Push(val);
            state := if room then Digit else NoRoom;
          } else {
            state := Failed(InvalidByte);
          }
        case NoRoom =>
          state := if val == stop then Final else if IsDigit(val) then Failed(Overflow) else Failed(InvalidByte);
        case Final => state := Failed(Trailing);
        case Failed(_) =>
      }
    }

    method PushByte(val: byte) returns (done: bool)
      requires Valid()
      modifies this, buf
      ensures Valid() && input == old(input) + [val]
      ensures done <==> state.Final?
    {
      assert (input + [val])[..|input|] == input;
      Advance(val);
      input := input + [val];
      done := state.Final?;
    }
  }

  // ---- The language it accepts

  /** A numeral other than "0": an optional minus sign, then digits that do not start with 0. */
  predicate NonZeroNumeral(t: seq<byte>)
  {
    var digits := if t != [] && t[0] == MINUS then t[1..] else t;
    digits != [] && AllDigits(digits) && digits[0] != 48
  }

  predicate Accepted(t: seq<byte>)
  {
    t == [48] || (NonZeroNumeral(t) && |t| <= ROOM)
  }

  /** `stop` is not in `t` behind the first digit, where it would end the numeral early. */
  predicate Clear(t: seq<byte>, stop: byte)
  {
    forall i :: 1 <= i < |t| && !(i == 1 && t[0] == MINUS) ==> t[i] != stop
  }

  /** An accepted numeral and the stop byte, which is not in the numeral already. */
  predicate Complete(s: seq<byte>, stop: byte)
  {
    |s| > 0 && s[|s| - 1] == stop && Accepted(s[..|s| - 1]) && Clear(s[..|s| - 1], stop)
  }

  /** `s` can still become, or already is, an accepted numeral with its stop byte. */
  predicate Viable(s: seq<byte>, stop: byte)
  {
    s == [] || s == [MINUS] || (Accepted(s) && Clear(s, stop)) || Complete(s, stop)
  }

  /** What each state says about the bytes read. */
  predicate Describes(a: Automaton, s: seq<byte>, stop: byte)
  {
    match a.state
    case Initial => s == [] && a.text == []
    case Negation => s == [MINUS] && a.text == s
    case Zero => s == [48] && a.text == s
    case Digit => NonZeroNumeral(s) && |s| < ROOM && Clear(s, stop) && a.text == s
    case NoRoom => NonZeroNumeral(s) && |s| == ROOM && Clear(s, stop) && a.text == s
    case Final => Complete(s, stop) && a.text == s[..|s| - 1]
    case Failed(_) => s != [] && !Viable(s, stop)
  }

  lemma DigitExtends(t: seq<byte>, b: byte)
    requires NonZeroNumeral(t)
    ensures NonZeroNumeral(t + [b]) <==> IsDigit(b)
    ensures t != [48]
  {
    var digits := if t[0] == MINUS then t[1..] else t;
    var digits' := if t[0] == MINUS then (t + [b])[1..] else t + [b];
    assert digits' == digits + [b];
    assert digits'[|digits|] == b;
  }

  lemma StepFromInitial(a: Automaton, val: byte, stop: byte)
    requires a == Automaton(Initial, [])
    ensures Describes(Step(a, val, stop), [] + [val], stop)
  {
    assert [] + [val] == [val];
  }

  lemma StepFromNegation(a: Automaton, val: byte, stop: byte)
    requires a == Automaton(Negation, [MINUS])
    ensures Describes(Step(a, val, stop), [MINUS] + [val], stop)
  {
    var u := [MINUS] + [val];
    assert u == [MINUS, val] && u[1..] == [val] && u[..1] == [MINUS];
  }

  lemma StepFromZero(a: Automaton, val: byte, stop: byte)
    requires a == Automaton(Zero, [48])
    ensures Describes(Step(a, val, stop), [48] + [val], stop)
  {
    var u := [48] + [val];
    assert u == [48, val] && u[..1] == [48];
  }

  lemma StepFromDigits(a: Automaton, s: seq<byte>, val: byte, stop: byte)
    requires Describes(a, s, stop) && (a.state.Digit? || a.state.NoRoom?)
    ensures Describes(Step(a, val, stop), s + [val], stop)
  {
    var u := s + [val];
    assert u[..|s|] == s && u[|s|] == val && u[0] == s[0];
    DigitExtends(s, val);
  }

  /** Whatever starts with a complete input has the stop byte inside. */
  lemma NotClear(s: seq<byte>, stop: byte, t: seq<byte>)
    requires Complete(s, stop) && s <= t
    ensures !Clear(t, stop) && t != [MINUS] && t != [48]
  {
    var n := |s| - 1;
    assert t[n] == stop && t[0] == s[..n][0];
  }

  lemma FinalIsFinal(s: seq<byte>, val: byte, stop: byte)
    requires Complete(s, stop)
    ensures !Viable(s + [val], stop)
  {
    var u := s + [val];
    assert u[..|s|] == s;
    NotClear(s, stop, s);
    NotClear(s, stop, u);
  }

  lemma StepDescribes(a: Automaton, s: seq<byte>, val: byte, stop: byte)
    requires Describes(a, s, stop) && !a.state.Failed?
    ensures Describes(Step(a, val, stop), s + [val], stop)
  {
    match a.state {
      case Initial => StepFromInitial(a, val, stop);
      case Negation => StepFromNegation(a, val, stop);
      case Zero => StepFromZero(a, val, stop);
      case Digit => StepFromDigits(a, s, val, stop);
      case NoRoom => StepFromDigits(a, s, val, stop);
      case Final => FinalIsFinal(s, val, stop);
    }
  }

  /** An ordinary stop byte is never inside. */
  lemma OrdinaryStop(t: seq<byte>, stop: byte)
    requires Accepted(t) && !IsDigit(stop)
    ensures Clear(t, stop)
  {
  }

  lemma PrefixOfNumeral(s: seq<byte>, val: byte)
    requires s != [] && NonZeroNumeral(s + [val])
    ensures s == [MINUS] || NonZeroNumeral(s)
  {
    var u := s + [val];
    if s[0] == MINUS {
      assert u[1..] == s[1..] + [val];
      assert forall i :: 0 <= i < |s| - 1 ==> s[1..][i] == u[1..][i];
      if |s| == 1 {
        assert s == [MINUS];
      }
    } else {
      assert forall i :: 0 <= i < |s| ==> s[i] == u[i];
    }
  }

  /** A failure is for good: nothing that starts like `s` is accepted. */
  lemma FailureIsFinal(s: seq<byte>, val: byte, stop: byte)
    requires s != [] && !Viable(s, stop)
    ensures !Viable(s + [val], stop)
  {
    var u := s + [val];
    assert u[..|s|] == s;
    if NonZeroNumeral(u) {
      PrefixOfNumeral(s, val);
    }
  }

  lemma {:induction false} FedDescribes(s: seq<byte>, stop: byte)
    ensures Describes(Fed(s, stop), s, stop)
    decreases |s|
  {
    if s != [] {
      var n := |s| - 1;
      FedDescribes(s[..n], stop);
      assert s == s[..n] + [s[n]];
      if Fed(s[..n], stop).state.Failed? {
        FailureIsFinal(s[..n], s[n], stop);
      } else {
        StepDescribes(Fed(s[..n], stop), s[..n], s[n], stop);
      }
    }
  }

  /** For every stop byte: Final is reached exactly on a complete input, and keeps the numeral. */
  lemma FinalLanguage(s: seq<byte>, stop: byte)
    ensures Fed(s, stop).state.Final? <==> Complete(s, stop)
    ensures Fed(s, stop).state.Final? ==> Fed(s, stop).text == s[..|s| - 1]
  {
    FedDescribes(s, stop);
    if Complete(s, stop) {
      NotClear(s, stop, s);
    }
  }

  // ---- What is refused, and how

  /** What is wrong with `val` after `s`, if the two cannot be the start of a numeral and its stop byte. */
  function Offence(s: seq<byte>, val: byte, stop: byte): NumberError
  {
    if Complete(s, stop) then Trailing
    else if s == [MINUS] && val == 48 then NegativeZero
    else if s == [48] && IsDigit(val) then LeadingZero
    else if |s| == 20 && IsDigit(val) then Overflow
    else InvalidByte
  }

  /** The first byte that cannot stand where it does is reported, by its kind. */
  lemma FirstOffence(s: seq<byte>, val: byte, stop: byte)
    requires Viable(s, stop) && !Viable(s + [val], stop)
    ensures Fed(s + [val], stop).state == Failed(Offence(s, val, stop))
  {
    FedDescribes(s, stop);
    FedDescribes(s + [val], stop);
    FinalLanguage(s, stop);
    assert (s + [val])[..|s|] == s;
  }

  lemma {:induction false} OffenceStays(s: seq<byte>, more: seq<byte>, stop: byte)
    requires Fed(s, stop).state.Failed?
    ensures Fed(s + more, stop) == Fed(s, stop)
    decreases |more|
  {
    if more == [] {
      assert s + more == s;
    } else {
      OffenceStays(s, more[..|more| - 1], stop);
      assert (s + more)[..|s + more| - 1] == s + more[..|more| - 1];
    }
  }

  /** Bytes after the first offence change nothing. */
  lemma OffenceIsReported(s: seq<byte>, val: byte, more: seq<byte>, stop: byte)
    requires Viable(s, stop) && !Viable(s + [val], stop)
    ensures Fed(s + [val] + more, stop).state == Failed(Offence(s, val, stop))
  {
    FirstOffence(s, val, stop);
    OffenceStays(s + [val], more, stop);
  }

  // ---- Numbers

  function ShowInt(n: int): seq<byte>
  {
    if n < 0 then [MINUS] + Show(-n) else Show(n)
  }

  function IntValue(t: seq<byte>): int
    requires Accepted(t)
  {
    var magnitude: int := NumeralValue(if t[0] == MINUS then t[1..] else t);
    if t[0] == MINUS then -magnitude else magnitude
  }

  lemma MachineRange(n: int)
    requires -0x8000_0000_0000_0000 <= n <= 0xFFFF_FFFF_FFFF_FFFF
    ensures |ShowInt(n)| <= ROOM
  {
    assert Pow(10, 9) == 1_000_000_000;
    PowSum(10, 9, 9);
    PowSum(10, 18, 1);
    PowSum(10, 19, 1);
    assert Pow(10, 1) == 10;
    if n < 0 {
      ShowLength(-n, 19);
    } else {
      ShowLength(n, 20);
    }
  }

  lemma PrintedNumeral(n: int)
    requires -0x8000_0000_0000_0000 <= n <= 0xFFFF_FFFF_FFFF_FFFF
    ensures Accepted(ShowInt(n)) && IntValue(ShowInt(n)) == n
  {
    MachineRange(n);
    var m := if n < 0 then -n else n;
    ShowValue(m);
    ShowIsCanonical(m);
    if n < 0 {
      assert ShowInt(n)[1..] == Show(m);
    }
  }

  lemma NumeralIsPrinted(t: seq<byte>)
    requires Accepted(t)
    ensures t == ShowInt(IntValue(t))
  {
    if t[0] == MINUS {
      LeadingDigit(t[1..]);
      CanonicalIsShow(t[1..]);
      assert t == [MINUS] + t[1..];
    } else {
      CanonicalIsShow(t);
    }
  }

  /** Every i64 and u64 value has exactly one accepted numeral, the one it is printed as. */
  lemma OneNumeral(n: int, t: seq<byte>)
    requires -0x8000_0000_0000_0000 <= n <= 0xFFFF_FFFF_FFFF_FFFF
    ensures Accepted(t) && IntValue(t) == n <==> t == ShowInt(n)
  {
    PrintedNumeral(n);
    if Accepted(t) {
      NumeralIsPrinted(t);
    }
  }

  // ---- Whole numbers

  datatype Outcome = Number(n: int) | Refused(error: NumberError)

  /** `from_digits` at an integer type that holds `min` to `max`; it is unsigned when `min` is 0. */
  function FromDigits(t: seq<byte>, min: int, max: int): Outcome
    requires Accepted(t)
  {
    if min == 0 && t[0] == MINUS then Refused(InvalidByte)
    else if min <= IntValue(t) <= max then Number(IntValue(t))
    else Refused(NumberError.Overflow)
  }

  /** `end`. */
  function End(a: Automaton, min: int, max: int): Outcome
    requires a.state.Final? ==> Accepted(a.text)
  {
    match a.state
    case Final => FromDigits(a.text, min, max)
    case Failed(error) => Refused(error)
    case _ => Refused(Truncated)
  }

  lemma MinusIsNegative(t: seq<byte>)
    requires Accepted(t) && t[0] == MINUS
    ensures IntValue(t) < 0
  {
    LeadingDigit(t[1..]);
  }

  lemma DigitsExactly(t: seq<byte>, min: int, max: int, n: int)
    requires -0x8000_0000_0000_0000 <= min <= 0 <= max <= 0xFFFF_FFFF_FFFF_FFFF
    requires Accepted(t)
    ensures FromDigits(t, min, max) == Number(n) <==> min <= n <= max && t == ShowInt(n)
  {
    NumeralIsPrinted(t);
    if t[0] == MINUS {
      MinusIsNegative(t);
    }
    if min <= n <= max {
      OneNumeral(n, t);
    }
  }

  /** `s` is `n` as it is printed, then the stop byte, which does not come earlier. */
  predicate Printed(s: seq<byte>, n: int, stop: byte)
  {
    s == ShowInt(n) + [stop] && Clear(ShowInt(n), stop)
  }

  /** What is refused at the end: too few bytes, a minus sign where none may be, a number out of range. */
  lemma EndRefuses(s: seq<byte>, stop: byte, min: int, max: int)
    ensures Viable(s, stop) && !Complete(s, stop) ==>
              !Fed(s, stop).state.Final? && End(Fed(s, stop), min, max) == Refused(Truncated)
    ensures Complete(s, stop) ==>
              && Fed(s, stop).state.Final? && Fed(s, stop).text == s[..|s| - 1] && Accepted(s[..|s| - 1])
              && (min == 0 && s[0] == MINUS ==> End(Fed(s, stop), min, max) == Refused(InvalidByte))
              && (!(min == 0 && s[0] == MINUS) && !(min <= IntValue(s[..|s| - 1]) <= max) ==>
                    End(Fed(s, stop), min, max) == Refused(NumberError.Overflow))
  {
    FedDescribes(s, stop);
    FinalLanguage(s, stop);
  }

  lemma LastByte(s: seq<byte>, t: seq<byte>, stop: byte)
    ensures s == t + [stop] <==> |s| > 0 && s[|s| - 1] == stop && s[..|s| - 1] == t
  {
  }

  /** A number comes out exactly when what went in is that number as it is printed, then the stop byte. */
  lemma ParsesExactly(s: seq<byte>, stop: byte, min: int, max: int, n: int)
    requires -0x8000_0000_0000_0000 <= min <= 0 <= max <= 0xFFFF_FFFF_FFFF_FFFF
    ensures Fed(s, stop).state.Final? ==> Accepted(Fed(s, stop).text)
    ensures End(Fed(s, stop), min, max) == Number(n) <==> min <= n <= max && Printed(s, n, stop)
  {
    FinalLanguage(s, stop);
    LastByte(s, ShowInt(n), stop);
    if Fed(s, stop).state.Final? {
      DigitsExactly(s[..|s| - 1], min, max, n);
    } else if min <= n <= max {
      OneNumeral(n, ShowInt(n));
    }
  }

  /** With an ordinary stop byte, such as the 'e' of bencode, every printed number is accepted. */
  lemma ParsesOrdinary(stop: byte, min: int, max: int, n: int)
    requires -0x8000_0000_0000_0000 <= min <= n <= max <= 0xFFFF_FFFF_FFFF_FFFF && min <= 0 <= max
    requires !IsDigit(stop)
    ensures Fed(ShowInt(n) + [stop], stop).state.Final? && Accepted(Fed(ShowInt(n) + [stop], stop).text)
    ensures End(Fed(ShowInt(n) + [stop], stop), min, max) == Number(n)
  {
    PrintedNumeral(n);
    OrdinaryStop(ShowInt(n), stop);
    ParsesExactly(ShowInt(n) + [stop], stop, min, max, n);
  }

  /** Pushing a whole buffer, then `end`. */
  method ParseBytes(s: seq<byte>, stop: byte, min: int, max: int) returns (r: Outcome)
    requires -0x8000_0000_0000_0000 <= min <= 0 <= max <= 0xFFFF_FFFF_FFFF_FFFF
    ensures Fed(s, stop).state.Final? ==> Accepted(Fed(s, stop).text)
    ensures r == End(Fed(s, stop), min, max)
    ensures forall n :: r == Number(n) <==> min <= n <= max && Printed(s, n, stop)
  {
    var parser := new Parser(stop);
    for i := 0 to |s|
      invariant fresh(parser) && fresh(parser.buf) && parser.Valid() && parser.stop == stop && parser.input == s[..i]
    {
      var _ := parser.PushByte(s[i]);
    }
    assert parser.input == s;
    FinalLanguage(s, stop);
    forall n
      ensures Fed(s, stop).state.Final? ==> Accepted(Fed(s, stop).text)
      ensures End(Fed(s, stop), min, max) == Number(n) <==> min <= n <= max && Printed(s, n, stop)
    {
      ParsesExactly(s, stop, min, max, n);
    }
    r := End(Automaton(parser.state, parser.buf[..parser.len]), min, max);
  }
}
