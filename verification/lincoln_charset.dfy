/** The Lincoln Writer character set (base/src/charset.rs): the
    sub- and superscript forms of Unicode characters, and the stateful
    decoder from 6-bit Lincoln Writer codes to Unicode. */
module LincolnCharset {
  import opened Outcomes

  /** A `u8` as the decoder receives it. */
  type Byte = b: int | 0 <= b < 256

  const HighestCode: int := 0x3F    // 0o77

  datatype NoSubscriptKnown = NoSubscriptKnown(ch: char)
  datatype NoSuperscriptKnown = NoSuperscriptKnown(ch: char)

  predicate IsDigit(ch: char) {
    '0' <= ch <= '9'
  }

  /** `subscript_char`: the Unicode subscript form of a digit, of '-',
      and '.' for '.' (Unicode has no subscript full stop). */
  function SubscriptChar(ch: char): (r: Result<char, NoSubscriptKnown>)
    ensures r.Ok? <==> IsDigit(ch) || ch == '-' || ch == '.'
    ensures r.Err? ==> r.error == NoSubscriptKnown(ch)
    ensures IsDigit(ch) ==> r.Ok? && r.value as int == 0x2080 + (ch as int - '0' as int)
    ensures ch == '.' ==> r == Ok('.')
  {
    match ch
    case '0' => Ok('\U{2080}')
    case '1' => Ok('\U{2081}')
    case '2' => Ok('\U{2082}')
    case '3' => Ok('\U{2083}')
    case '4' => Ok('\U{2084}')
    case '5' => Ok('\U{2085}')
    case '6' => Ok('\U{2086}')
    case '7' => Ok('\U{2087}')
    case '8' => Ok('\U{2088}')
    case '9' => Ok('\U{2089}')
    case '-' => Ok('\U{208B}')
    case '.' => Ok('.')
    case _ => Err(NoSubscriptKnown(ch))
  }

  /** `superscript_char`: the Unicode superscript form of a digit or of a
      capital 'A'..'X'; Unicode has none for 'Y' and 'Z'. */
  function SuperscriptChar(ch: char): (r: Result<char, NoSuperscriptKnown>)
    ensures r.Ok? <==> IsDigit(ch) || 'A' <= ch <= 'X'
    ensures r.Err? ==> r.error == NoSuperscriptKnown(ch)
    ensures r.Ok? ==> r.value != ch
  {
    match ch
    case '0' => Ok('\U{2070}')
    case '1' => Ok('\U{00B9}')
    case '2' => Ok('\U{00B2}')
    case '3' => Ok('\U{00B3}')
    case '4' => Ok('\U{2074}')
    case '5' => Ok('\U{2075}')
    case '6' => Ok('\U{2076}')
    case '7' => Ok('\U{2077}')
    case '8' => Ok('\U{2078}')
    case '9' => Ok('\U{2079}')
    case 'A' => Ok('\U{1D2C}')
    case 'B' => Ok('\U{1D2E}')
    case 'C' => Ok('\U{A7F2}')
    case 'D' => Ok('\U{1D30}')
    case 'E' => Ok('\U{1D31}')
    case 'F' => Ok('\U{A7F3}')
    case 'G' => Ok('\U{1D33}')
    case 'H' => Ok('\U{1D34}')
    case 'I' => Ok('\U{1D35}')
    case 'J' => Ok('\U{1D36}')
    case 'K' => Ok('\U{1D37}')
    case 'L' => Ok('\U{1D38}')
    case 'M' => Ok('\U{1D39}')
    case 'N' => Ok('\U{1D3A}')
    case 'O' => Ok('\U{1D3C}')
    case 'P' => Ok('\U{1D3E}')
    case 'Q' => Ok('\U{A7F4}')
    case 'R' => Ok('\U{1D3F}')
    case 'S' => Ok('\U{209B}')
    case 'T' => Ok('\U{1D40}')
    case 'U' => Ok('\U{1D41}')
    case 'V' => Ok('\U{2C7D}')
    case 'W' => Ok('\U{1D42}')
    case 'X' => Ok('\U{2093}')
    case _ => Err(NoSuperscriptKnown(ch))
  }

  datatype Script = Normal | Super | Sub
  datatype Colour = Black | Red

  datatype LincolnState = LincolnState(script: Script, uppercase: bool, colour: Colour)

  /** `LincolnState::default`: upper case, normal script, black. */
  const DefaultState: LincolnState := LincolnState(Normal, true, Black)

  datatype DescribedChar = DescribedChar(baseChar: char, display: Option<char>, attributes: LincolnState)

  datatype LincolnToUnicodeConversionFailure =
    | CharacterOutOfRange(code: Byte)
    | NoMapping(code: Byte)
    | CannotSuperscript(code: Byte, ch: char)
    | CannotSubscript(code: Byte, ch: char)

  /** What a code means to the decoder. */
  datatype CodeMeaning =
    | Printing(upper: char, lower: char)   // a character that depends on the case
    | Fixed(ch: char)                      // a character that does not
    | ColourShift(colour: Colour)
    | ScriptShift(script: Script)
    | CaseShift(uppercase: bool)
    | Unmapped                             // READ IN, BEGIN, NO, YES, WORD EXAM, STOP
    | OutOfRange                           // not a 6-bit code

  /** The code table of `lincoln_char_to_described_char`. */
  function Meaning(code: Byte): CodeMeaning {
    match code
    case 0 => Printing('0', '\U{261B}')   // 0o00
    case 1 => Printing('1', '\U{03A3}')   // 0o01
    case 2 => Printing('2', '|')   // 0o02
    case 3 => Printing('3', '\U{2016}')   // 0o03
    case 4 => Printing('4', '/')   // 0o04
    case 5 => Printing('5', '\U{00D7}')   // 0o05
    case 6 => Printing('6', '#')   // 0o06
    case 7 => Printing('7', '\U{2192}')   // 0o07
    case 8 => Printing('8', '<')   // 0o10
    case 9 => Printing('9', '>')   // 0o11
    case 10 => Printing('_', '\U{203E}')   // 0o12
    case 11 => Printing('\U{25CB}', '\U{25A1}')   // 0o13
    case 12 => Unmapped   // 0o14
    case 13 => Unmapped   // 0o15
    case 14 => Unmapped   // 0o16
    case 15 => Unmapped   // 0o17
    case 16 => Printing('A', '\U{2248}')   // 0o20
    case 17 => Printing('B', '\U{2282}')   // 0o21
    case 18 => Printing('C', '\U{2228}')   // 0o22
    case 19 => Printing('D', 'q')   // 0o23
    case 20 => Printing('E', '\U{03B3}')   // 0o24
    case 21 => Printing('F', 't')   // 0o25
    case 22 => Printing('G', 'w')   // 0o26
    case 23 => Printing('H', 'x')   // 0o27
    case 24 => Printing('I', 'i')   // 0o30
    case 25 => Printing('J', 'y')   // 0o31
    case 26 => Printing('K', 'z')   // 0o32
    case 27 => Printing('L', '?')   // 0o33
    case 28 => Printing('M', '\U{222A}')   // 0o34
    case 29 => Printing('N', '\U{2229}')   // 0o35
    case 30 => Printing('O', 'j')   // 0o36
    case 31 => Printing('P', 'k')   // 0o37
    case 32 => Printing('Q', 'a')   // 0o40
    case 33 => Printing('R', '\U{0394}')   // 0o41
    case 34 => Printing('S', 'p')   // 0o42
    case 35 => Printing('T', '\U{2208}')   // 0o43
    case 36 => Printing('U', 'h')   // 0o44
    case 37 => Printing('V', '\U{2283}')   // 0o45
    case 38 => Printing('W', '\U{03D0}')   // 0o46
    case 39 => Printing('X', '^')   // 0o47
    case 40 => Printing('Y', '\U{03BB}')   // 0o50
    case 41 => Printing('Z', '~')   // 0o51
    case 42 => Printing('(', '{')   // 0o52
    case 43 => Printing(')', '}')   // 0o53
    case 44 => Printing('+', '\U{2261}')   // 0o54
    case 45 => Printing('-', '=')   // 0o55
    case 46 => Printing(',', '\'')   // 0o56
    case 47 => Printing('.', '*')   // 0o57
    case 48 => Fixed('\r')   // 0o60
    case 49 => Fixed('\t')   // 0o61
    case 50 => Fixed('\U{0008}')   // 0o62
    case 51 => ColourShift(Black)   // 0o63
    case 52 => ScriptShift(Super)   // 0o64
    case 53 => ScriptShift(Normal)   // 0o65
    case 54 => ScriptShift(Sub)   // 0o66
    case 55 => ColourShift(Red)   // 0o67
    case 56 => Fixed(' ')   // 0o70
    case 57 => Unmapped   // 0o71
    case 58 => Fixed('\n')   // 0o72
    case 59 => Fixed('\U{008D}')   // 0o73
    case 60 => CaseShift(false)   // 0o74
    case 61 => CaseShift(true)   // 0o75
    case 62 => Unmapped   // 0o76
    case 63 => Fixed('\U{007F}')   // 0o77

    case _ => OutOfRange
  }

  /** How the code table divides the codes: case-dependent characters
      below 0o60 apart from the four unmapped codes 0o14-0o17, the seven
      fixed characters, each shift at its one code, two more unmapped
      codes, and nothing above 0o77. */
  lemma MeaningClasses(code: Byte)
    ensures Meaning(code).OutOfRange? <==> code > HighestCode
    ensures Meaning(code).Unmapped? <==> code in {0xC, 0xD, 0xE, 0xF, 0x39, 0x3E}
    ensures Meaning(code).Printing? <==> code < 0x30 && code !in {0xC, 0xD, 0xE, 0xF}
    ensures Meaning(code).Fixed? <==> code in {0x30, 0x31, 0x32, 0x38, 0x3A, 0x3B, 0x3F}
    ensures Meaning(code) == ColourShift(Black) <==> code == 0x33
    ensures Meaning(code) == ColourShift(Red) <==> code == 0x37
    ensures Meaning(code) == ScriptShift(Super) <==> code == 0x34
    ensures Meaning(code) == ScriptShift(Normal) <==> code == 0x35
    ensures Meaning(code) == ScriptShift(Sub) <==> code == 0x36
    ensures Meaning(code) == CaseShift(false) <==> code == 0x3C
    ensures Meaning(code) == CaseShift(true) <==> code == 0x3D
  {
  }

  predicate IsShiftCode(code: Byte) {
    Meaning(code).ColourShift? || Meaning(code).ScriptShift? || Meaning(code).CaseShift?
  }

  predicate IsCharacterCode(code: Byte) {
    Meaning(code).Printing? || Meaning(code).Fixed?
  }

  /** The character a character code stands for in the given case. */
  function BaseChar(code: Byte, uppercase: bool): char
    requires IsCharacterCode(code)
  {
    match Meaning(code)
    case Printing(upper, lower) => if uppercase then upper else lower
    case Fixed(ch) => ch
  }

  /** How a base character is shown in a script: itself in normal script,
      its sub- or superscript form if Unicode has one. */
  function Display(base: char, script: Script): (d: Option<char>)
    ensures script == Normal ==> d == Some(base)
    ensures script == Sub ==> (d.Some? <==> SubscriptChar(base).Ok?)
    ensures script == Super ==> (d.Some? <==> SuperscriptChar(base).Ok?)
  {
    match script
    case Normal => Some(base)
    case Sub => if SubscriptChar(base).Ok? then Some(SubscriptChar(base).value) else None
    case Super => if SuperscriptChar(base).Ok? then Some(SuperscriptChar(base).value) else None
  }

  /** The state after a shift code. */
  function Shifted(state: LincolnState, m: CodeMeaning): LincolnState {
    match m
    case ColourShift(c) => state.(colour := c)
    case ScriptShift(s) => state.(script := s)
    case CaseShift(u) => state.(uppercase := u)
    case _ => state
  }

  /** `lincoln_char_to_described_char`: the described character and the
      state after `code`.  A shift code yields no character and changes
      exactly one field of the state; a character code leaves the state
      alone and is described with it. */
  function DescribeLincolnChar(code: Byte, state: LincolnState)
    : (r: Result<(Option<DescribedChar>, LincolnState), LincolnToUnicodeConversionFailure>)
    ensures r == Err(CharacterOutOfRange(code)) <==> code > HighestCode
    ensures r == Err(NoMapping(code)) <==> code in {0xC, 0xD, 0xE, 0xF, 0x39, 0x3E}
    ensures r.Ok? <==> IsShiftCode(code) || IsCharacterCode(code)
    ensures IsShiftCode(code) ==> r.Ok? && r.value.0.None?
    ensures code == 0x33 ==> r == Ok((None, state.(colour := Black)))
    ensures code == 0x37 ==> r == Ok((None, state.(colour := Red)))
    ensures code == 0x34 ==> r == Ok((None, state.(script := Super)))
    ensures code == 0x35 ==> r == Ok((None, state.(script := Normal)))
    ensures code == 0x36 ==> r == Ok((None, state.(script := Sub)))
    ensures code == 0x3C ==> r == Ok((None, state.(uppercase := false)))
    ensures code == 0x3D ==> r == Ok((None, state.(uppercase := true)))
    ensures IsCharacterCode(code) ==>
      && r.Ok? && r.value.1 == state && r.value.0.Some?
      && r.value.0.value.baseChar == BaseChar(code, state.uppercase)
      && r.value.0.value.attributes == state
      && r.value.0.value.display == Display(r.value.0.value.baseChar, state.script)
  {
    var m := Meaning(code);
    match m
    case OutOfRange => Err(CharacterOutOfRange(code))
    case Unmapped => Err(NoMapping(code))
    case Printing(_, _) =>
      var base := BaseChar(code, state.uppercase);
      Ok((Some(DescribedChar(base, Display(base, state.script), state)), state))
    case Fixed(_) =>
      var base := BaseChar(code, state.uppercase);
      Ok((Some(DescribedChar(base, Display(base, state.script), state)), state))
    case _ => Ok((None, Shifted(state, m)))
  }

  /** The loop of `lincoln_to_unicode_strict` from a given state. */
  function DecodeFrom(input: seq<Byte>, state: LincolnState): (r: Result<string, LincolnToUnicodeConversionFailure>)
    ensures r.Ok? ==> |r.value| <= |input|
    ensures r.Err? ==> r.error.code in input
    ensures r.Err? && r.error.CharacterOutOfRange? ==> r.error.code > HighestCode
    decreases |input|
  {
    if |input| == 0 then Ok("")
    else
      var described := DescribeLincolnChar(input[0], state);
      if described.Err? then Err(described.error)
      else
        var next := described.value.1;
        if described.value.0.None? then DecodeFrom(input[1..], next)
        else
          var dc := described.value.0.value;
          if dc.display.Some? then
            var rest := DecodeFrom(input[1..], next);
            if rest.Ok? then Ok([dc.display.value] + rest.value) else rest
          else if state.script == Sub then Err(CannotSubscript(input[0], dc.baseChar))
          else Err(CannotSuperscript(input[0], dc.baseChar))
  }

  /** `lincoln_to_unicode_strict`: decode from the default state. */
  function LincolnToUnicodeStrict(input: seq<Byte>): (r: Result<string, LincolnToUnicodeConversionFailure>)
    ensures r.Ok? ==> |r.value| <= |input|
    ensures r.Err? ==> r.error.code in input
  {
    DecodeFrom(input, DefaultState)
  }

  lemma {:induction false} ShiftCodesOnly(input: seq<Byte>, state: LincolnState)
    ensures (forall i :: 0 <= i < |input| ==> IsShiftCode(input[i])) ==> DecodeFrom(input, state) == Ok("")
    decreases |input|
  {
    if |input| > 0 && forall i :: 0 <= i < |input| ==> IsShiftCode(input[i]) {
      var next := DescribeLincolnChar(input[0], state).value.1;
      assert forall i :: 0 <= i < |input[1..]| ==> IsShiftCode(input[1..][i]) by {
        forall i | 0 <= i < |input[1..]| ensures IsShiftCode(input[1..][i]) {
          assert input[1..][i] == input[i + 1];
        }
      }
      ShiftCodesOnly(input[1..], next);
    }
  }

  /** A character code shown in the current script prepends its display
      form to the decoding of the rest. */
  lemma DecodeCharacterStep(input: seq<Byte>, state: LincolnState, text: string)
    requires |input| > 0 && IsCharacterCode(input[0]) && |text| > 0
    requires Display(BaseChar(input[0], state.uppercase), state.script) == Some(text[0])
    requires DecodeFrom(input[1..], state) == Ok(text[1..])
    ensures DecodeFrom(input, state) == Ok(text)
  {
    var described := DescribeLincolnChar(input[0], state);
    assert described.Ok? && described.value.1 == state && described.value.0.Some?;
    assert described.value.0.value.display == Some(text[0]);
    HeadAndTail(text);
  }

  lemma HeadAndTail(text: string)
    requires |text| > 0
    ensures [text[0]] + text[1..] == text
  {
  }

  /** A run of character codes that all show something in one state
      decodes to what each shows, in order. */
  lemma {:induction false} CharactersOnly(input: seq<Byte>, state: LincolnState, text: string)
    requires |input| == |text|
    requires forall i :: 0 <= i < |input| ==>
      IsCharacterCode(input[i]) && Display(BaseChar(input[i], state.uppercase), state.script) == Some(text[i])
    ensures DecodeFrom(input, state) == Ok(text)
    decreases |input|
  {
    if |input| > 0 {
      forall i | 0 <= i < |input[1..]|
        ensures IsCharacterCode(input[1..][i])
        ensures Display(BaseChar(input[1..][i], state.uppercase), state.script) == Some(text[1..][i])
      {
        assert input[1..][i] == input[i + 1] && text[1..][i] == text[i + 1];
      }
      CharactersOnly(input[1..], state, text[1..]);
      DecodeCharacterStep(input, state, text);
    }
  }

  /** A shift code produces nothing and decodes the rest in the shifted
      state. */
  lemma DecodeShiftStep(input: seq<Byte>, state: LincolnState, next: LincolnState, text: string)
    requires |input| > 0 && IsShiftCode(input[0])
    requires Shifted(state, Meaning(input[0])) == next
    requires DecodeFrom(input[1..], next) == Ok(text)
    ensures DecodeFrom(input, state) == Ok(text)
  {
  }

  /** The same for a shift code written in front of the rest. */
  lemma DecodeShiftFirst(code: Byte, tail: seq<Byte>, state: LincolnState, text: string)
    requires IsShiftCode(code) && DecodeFrom(tail, Shifted(state, Meaning(code))) == Ok(text)
    ensures DecodeFrom([code] + tail, state) == Ok(text)
  {
    assert ([code] + tail)[1..] == tail;
    DecodeShiftStep([code] + tail, state, Shifted(state, Meaning(code)), text);
  }

  /** The same for a character code written in front of the rest. */
  lemma DecodeCharacterFirst(code: Byte, tail: seq<Byte>, state: LincolnState, c: char, text: string)
    requires IsCharacterCode(code) && Display(BaseChar(code, state.uppercase), state.script) == Some(c)
    requires DecodeFrom(tail, state) == Ok(text)
    ensures DecodeFrom([code] + tail, state) == Ok([c] + text)
  {
    assert ([code] + tail)[1..] == tail && ([c] + text)[1..] == text;
    DecodeCharacterStep([code] + tail, state, [c] + text);
  }

  // Where decoding stops.

  /** The error a code raises in a state, if any: out of range, no
      mapping, or a character with no form in the current script. */
  function Failure(code: Byte, state: LincolnState): (f: Option<LincolnToUnicodeConversionFailure>)
    ensures f.Some? ==> f.value.code == code
    ensures f.None? <==> IsShiftCode(code) || (IsCharacterCode(code) && Display(BaseChar(code, state.uppercase), state.script).Some?)
    ensures state.script == Normal && f.Some? ==> f.value.CharacterOutOfRange? || f.value.NoMapping?
  {
    match Meaning(code)
    case OutOfRange => Some(CharacterOutOfRange(code))
    case Unmapped => Some(NoMapping(code))
    case Printing(_, _) => CharacterFailure(code, state)
    case Fixed(_) => CharacterFailure(code, state)
    case _ => None
  }

  /** A character code fails when its base character has no form in the
      current script: subscript and superscript have their own errors. */
  function CharacterFailure(code: Byte, state: LincolnState): (f: Option<LincolnToUnicodeConversionFailure>)
    requires IsCharacterCode(code)
    ensures f.None? <==> Display(BaseChar(code, state.uppercase), state.script).Some?
    ensures f.Some? ==> state.script != Normal
    ensures f.Some? && state.script == Sub ==> f.value == CannotSubscript(code, BaseChar(code, state.uppercase))
    ensures f.Some? && state.script == Super ==> f.value == CannotSuperscript(code, BaseChar(code, state.uppercase))
  {
    var base := BaseChar(code, state.uppercase);
    if Display(base, state.script).Some? then None
    else if state.script == Sub then Some(CannotSubscript(code, base))
    else Some(CannotSuperscript(code, base))
  }

  /** The decoder state after a run of codes: every code is applied as a
      shift (character codes leave the state alone). */
  function StateAfter(input: seq<Byte>, state: LincolnState): LincolnState
    decreases |input|
  {
    if |input| == 0 then state else StateAfter(input[1..], Shifted(state, Meaning(input[0])))
  }

  /** The i-th code fails in the state the codes before it leave. */
  predicate FailsAt(input: seq<Byte>, state: LincolnState, i: int)
    requires 0 <= i < |input|
  {
    Failure(input[i], StateAfter(input[..i], state)).Some?
  }

  /** A code that describes without error moves the decoder to the
      shifted state. */
  lemma DescribeNext(code: Byte, state: LincolnState)
    requires DescribeLincolnChar(code, state).Ok?
    ensures DescribeLincolnChar(code, state).value.1 == Shifted(state, Meaning(code))
  {
    match Meaning(code)
    case Printing(_, _) =>
    case Fixed(_) =>
    case _ =>
  }

  /** A first code that fails ends decoding with its error. */
  lemma DecodeErrorStep(input: seq<Byte>, state: LincolnState)
    requires |input| > 0 && Failure(input[0], state).Some?
    ensures DecodeFrom(input, state) == Err(Failure(input[0], state).value)
  {
    match Meaning(input[0])
    case OutOfRange =>
    case Unmapped =>
    case Printing(_, _) =>
    case Fixed(_) =>
    case _ =>
  }

  /** A first code that does not fail leaves the outcome to the rest,
      decoded in the shifted state: success exactly when the rest
      succeeds, and the rest's error otherwise. */
  lemma DecodeGoodStep(input: seq<Byte>, state: LincolnState)
    requires |input| > 0 && Failure(input[0], state).None?
    ensures DecodeFrom(input, state).Ok? <==> DecodeFrom(input[1..], Shifted(state, Meaning(input[0]))).Ok?
    ensures DecodeFrom(input[1..], Shifted(state, Meaning(input[0]))).Err? ==>
              DecodeFrom(input, state) == DecodeFrom(input[1..], Shifted(state, Meaning(input[0])))
  {
    DescribeNext(input[0], state);
  }

  /** Dropping the first code of a prefix: the state the first k codes
      leave is the state the next k - 1 codes leave after the first. */
  lemma StateAfterPrefix(input: seq<Byte>, state: LincolnState, k: int)
    requires 1 <= k <= |input|
    ensures StateAfter(input[..k], state) == StateAfter(input[1..][..k - 1], Shifted(state, Meaning(input[0])))
  {
    assert input[..k][1..] == input[1..][..k - 1];
  }

  /** Failing positions of the rest are the failing positions of the
      whole, one further on. */
  lemma FailsAtTail(input: seq<Byte>, state: LincolnState, j: int)
    requires 1 <= j < |input|
    ensures FailsAt(input, state, j) <==> FailsAt(input[1..], Shifted(state, Meaning(input[0])), j - 1)
  {
    StateAfterPrefix(input, state, j);
  }

  /** Decoding stops at the first failing code, with that code's error:
      nothing after it is looked at. */
  lemma {:induction false} DecodeFailsAtFirstFailure(input: seq<Byte>, state: LincolnState, i: int)
    requires 0 <= i < |input| && FailsAt(input, state, i)
    requires forall j :: 0 <= j < i ==> !FailsAt(input, state, j)
    ensures DecodeFrom(input, state) == Err(Failure(input[i], StateAfter(input[..i], state)).value)
    decreases i
  {
    if i == 0 {
      assert input[..0] == [];
      DecodeErrorStep(input, state);
    } else {
      var next := Shifted(state, Meaning(input[0]));
      assert input[..0] == [];
      assert !FailsAt(input, state, 0);
      DecodeGoodStep(input, state);
      FailsAtTail(input, state, i);
      forall j | 0 <= j < i - 1 ensures !FailsAt(input[1..], next, j) {
        FailsAtTail(input, state, j + 1);
      }
      DecodeFailsAtFirstFailure(input[1..], next, i - 1);
      StateAfterPrefix(input, state, i);
    }
  }

  /** Decoding succeeds exactly when no code fails in the state the codes
      before it leave. */
  lemma {:induction false} DecodeSucceedsIff(input: seq<Byte>, state: LincolnState)
    ensures DecodeFrom(input, state).Ok? <==> forall i :: 0 <= i < |input| ==> !FailsAt(input, state, i)
    decreases |input|
  {
    if |input| > 0 {
      var next := Shifted(state, Meaning(input[0]));
      assert input[..0] == [];
      if FailsAt(input, state, 0) {
        DecodeErrorStep(input, state);
      } else {
        DecodeGoodStep(input, state);
        DecodeSucceedsIff(input[1..], next);
        forall j | 1 <= j < |input| ensures FailsAt(input, state, j) <==> FailsAt(input[1..], next, j - 1) {
          FailsAtTail(input, state, j);
        }
        if !DecodeFrom(input, state).Ok? {
          var j :| 0 <= j < |input[1..]| && FailsAt(input[1..], next, j);
          assert FailsAt(input, state, j + 1);
        }
      }
    }
  }

  /** `lincoln_to_unicode_strict` succeeds exactly when no code fails
      from the default state on, and otherwise reports the first failing
      code's error. */
  lemma StrictFailsAtFirstFailure(input: seq<Byte>)
    ensures LincolnToUnicodeStrict(input).Ok? <==> forall i :: 0 <= i < |input| ==> !FailsAt(input, DefaultState, i)
    ensures forall i :: 0 <= i < |input| && FailsAt(input, DefaultState, i)
                        && (forall j :: 0 <= j < i ==> !FailsAt(input, DefaultState, j)) ==>
              LincolnToUnicodeStrict(input) == Err(Failure(input[i], StateAfter(input[..i], DefaultState)).value)
  {
    DecodeSucceedsIff(input, DefaultState);
    forall i | 0 <= i < |input| && FailsAt(input, DefaultState, i) && (forall j :: 0 <= j < i ==> !FailsAt(input, DefaultState, j))
      ensures LincolnToUnicodeStrict(input) == Err(Failure(input[i], StateAfter(input[..i], DefaultState)).value)
    {
      DecodeFailsAtFirstFailure(input, DefaultState, i);
    }
  }

  // The examples the source's tests check.

  lemma DecodeHello()
    ensures LincolnToUnicodeStrict([0x17, 0x14, 0x1B, 0x1B, 0x1E]) == Ok("HELLO")
  {
    CharactersOnly([0x17, 0x14, 0x1B, 0x1B, 0x1E], DefaultState, "HELLO");
  }

  /** H, E, L, L, O in superscript show the superscript capitals. */
  lemma DecodeSuperscriptLetters(sup: LincolnState)
    requires sup == DefaultState.(script := Super)
    ensures DecodeFrom([0x17, 0x14, 0x1B, 0x1B, 0x1E], sup) == Ok("\U{1D34}\U{1D31}\U{1D38}\U{1D38}\U{1D3C}")
  {
    CharactersOnly([0x17, 0x14, 0x1B, 0x1B, 0x1E], sup, "\U{1D34}\U{1D31}\U{1D38}\U{1D38}\U{1D3C}");
  }

  /** A leading superscript shift decodes the rest in superscript. */
  lemma SuperscriptShiftFirst(tail: seq<Byte>, text: string)
    requires DecodeFrom(tail, DefaultState.(script := Super)) == Ok(text)
    ensures LincolnToUnicodeStrict([0x34] + tail) == Ok(text)
  {
    SuperscriptShift(DefaultState);
    DecodeShiftFirst(0x34, tail, DefaultState, text);
  }

  /** Code 0o64 is the shift to superscript. */
  lemma SuperscriptShift(state: LincolnState)
    ensures IsShiftCode(0x34) && Shifted(state, Meaning(0x34)) == state.(script := Super)
  {
  }

  /** The HELLO codes after a shift to superscript show the superscript
      capitals. */
  lemma DecodeSuperscriptHello()
    ensures LincolnToUnicodeStrict([0x34, 0x17, 0x14, 0x1B, 0x1B, 0x1E])
            == Ok("\U{1D34}\U{1D31}\U{1D38}\U{1D38}\U{1D3C}")
  {
    DecodeSuperscriptLetters(DefaultState.(script := Super));
    SuperscriptShiftFirst([0x17, 0x14, 0x1B, 0x1B, 0x1E], "\U{1D34}\U{1D31}\U{1D38}\U{1D38}\U{1D3C}");
    assert [0x34] + [0x17, 0x14, 0x1B, 0x1B, 0x1E] == [0x34, 0x17, 0x14, 0x1B, 0x1B, 0x1E];
  }

  /** Subscript two, back to normal script, O. */
  lemma DecodeSubscriptTail(sub: LincolnState)
    requires sub == DefaultState.(script := Sub)
    ensures DecodeFrom([0x02, 0x35, 0x1E], sub) == Ok("\U{2082}O")
  {
    assert Shifted(sub, Meaning(0x35)) == DefaultState;
    assert Display(BaseChar(0x02, true), Sub) == Some('\U{2082}');
    assert [0x02] + ([0x35] + [0x1E]) == [0x02, 0x35, 0x1E] && ['\U{2082}'] + "O" == "\U{2082}O";
    CharactersOnly([0x1E], DefaultState, "O");
    DecodeShiftFirst(0x35, [0x1E], sub, "O");
    DecodeCharacterFirst(0x02, [0x35] + [0x1E], sub, '\U{2082}', "O");
  }

  /** Water: a subscript two between normal-script letters. */
  lemma DecodeWater()
    ensures LincolnToUnicodeStrict([0x35, 0x17, 0x36, 0x02, 0x35, 0x1E]) == Ok("H\U{2082}O")
  {
    var s := DefaultState;
    var sub := s.(script := Sub);
    assert Shifted(s, Meaning(0x35)) == s && Shifted(s, Meaning(0x36)) == sub;
    assert Display(BaseChar(0x17, true), Normal) == Some('H');
    assert [0x35] + ([0x17] + ([0x36] + [0x02, 0x35, 0x1E])) == [0x35, 0x17, 0x36, 0x02, 0x35, 0x1E];
    assert ['H'] + "\U{2082}O" == "H\U{2082}O";
    DecodeSubscriptTail(sub);
    DecodeShiftFirst(0x36, [0x02, 0x35, 0x1E], s, "\U{2082}O");
    DecodeCharacterFirst(0x17, [0x36] + [0x02, 0x35, 0x1E], s, 'H', "\U{2082}O");
    DecodeShiftFirst(0x35, [0x17] + ([0x36] + [0x02, 0x35, 0x1E]), s, "H\U{2082}O");
  }

  /** Upper-case shift, then the bracket keys give parentheses. */
  lemma DecodeParenthesesAfterShift(lower: LincolnState)
    requires lower == DefaultState.(uppercase := false)
    ensures DecodeFrom([0x3D, 0x2A, 0x2B], lower) == Ok("()")
  {
    CharactersOnly([0x2A, 0x2B], DefaultState, "()");
    DecodeShiftStep([0x3D, 0x2A, 0x2B], lower, DefaultState, "()");
  }

  /** In lower case the bracket keys give braces. */
  lemma DecodeBracesThenParentheses(lower: LincolnState)
    requires lower == DefaultState.(uppercase := false)
    ensures DecodeFrom([0x2A, 0x2B, 0x3D, 0x2A, 0x2B], lower) == Ok("{}()")
  {
    DecodeParenthesesAfterShift(lower);
    DecodeCharacterStep([0x2B, 0x3D, 0x2A, 0x2B], lower, "}()");
    DecodeCharacterStep([0x2A, 0x2B, 0x3D, 0x2A, 0x2B], lower, "{}()");
  }

  /** The bracket keys give braces in lower case and parentheses in upper. */
  lemma DecodeBrackets()
    ensures LincolnToUnicodeStrict([0x3C, 0x2A, 0x2B, 0x3D, 0x2A, 0x2B]) == Ok("{}()")
  {
    var lower := DefaultState.(uppercase := false);
    assert Shifted(DefaultState, Meaning(0x3C)) == lower;
    assert [0x3C] + [0x2A, 0x2B, 0x3D, 0x2A, 0x2B] == [0x3C, 0x2A, 0x2B, 0x3D, 0x2A, 0x2B];
    DecodeBracesThenParentheses(lower);
    DecodeShiftFirst(0x3C, [0x2A, 0x2B, 0x3D, 0x2A, 0x2B], DefaultState, "{}()");
  }

  /** Superscript 'Y' has no Unicode form. */
  lemma MissingSuperscript()
    ensures LincolnToUnicodeStrict([0x34, 0x3D, 0x28]) == Err(CannotSuperscript(0x28, 'Y'))
  {
  }

  lemma ReadInHasNoMapping()
    ensures LincolnToUnicodeStrict([0x0C]) == Err(NoMapping(0x0C))
  {
  }
}
