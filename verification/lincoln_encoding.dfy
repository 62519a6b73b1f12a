/** The Unicode to Lincoln Writer direction of base/src/charset.rs: the
    table `UnicodeToLincolnMapping::new` builds from the decoder, and the
    encoder `to_lincoln` that emits case and script shifts only when they
    change.  The round trip back through the strict decoder is proved. */
module LincolnEncoding {
  import opened Outcomes
  import opened LincolnCharset

  /** The code and decoder state that produce a Unicode character. */
  datatype LincChar = LincChar(state: LincolnState, value: Byte)

  type Mapping = map<char, LincChar>

  datatype UnicodeToLincolnConversionFailure = NoMappingFor(ch: char)

  /** The constructor visits three scripts, two cases and 64 codes. */
  const EntryCount: nat := 384

  /** Which of the six (script, case) passes the k-th visit belongs to:
      scripts in the order normal, superscript, subscript, and within each
      lower case before upper case. */
  function Pass(k: nat): (g: nat)
    requires k < EntryCount
    ensures g < 6 && 64 * g <= k < 64 * g + 64
  {
    if k < 64 then 0 else if k < 128 then 1 else if k < 192 then 2
    else if k < 256 then 3 else if k < 320 then 4 else 5
  }

  /** The decoder state of the k-th visit. */
  function EntryState(k: nat): (st: LincolnState)
    requires k < EntryCount
    ensures st.colour == Black
  {
    var g := Pass(k);
    var script := if g < 2 then Normal else if g < 4 then Super else Sub;
    LincolnState(script, g == 1 || g == 3 || g == 5, Black)
  }

  /** The code of the k-th visit, counting up from 0 in each pass. */
  function EntryValue(k: nat): (v: Byte)
    requires k < EntryCount
    ensures v <= HighestCode
  {
    k - 64 * Pass(k)
  }

  /** The character the k-th visit shows, if it shows one. */
  function EntryDisplay(k: nat): Option<char>
    requires k < EntryCount
  {
    if IsCharacterCode(EntryValue(k)) then
      Display(BaseChar(EntryValue(k), EntryState(k).uppercase), EntryState(k).script)
    else None
  }

  /** Every entry names a character code which, decoded in the entry's
      case and script, shows the entry's key. */
  predicate Sound(m: Mapping) {
    forall c :: c in m ==>
      && IsCharacterCode(m[c].value)
      && Display(BaseChar(m[c].value, m[c].state.uppercase), m[c].state.script) == Some(c)
  }

  /** What the k-th visit inserts: the displayed character and the code
      with the state the decoder left, when the decoder shows a character. */
  function Visit(k: nat): (v: Option<(char, LincChar)>)
    requires k < EntryCount
    ensures v.Some? <==> EntryDisplay(k).Some?
    ensures v.Some? ==> v.value == (EntryDisplay(k).value, LincChar(EntryState(k), EntryValue(k)))
  {
    match DescribeLincolnChar(EntryValue(k), EntryState(k))
    case Ok((Some(dc), after)) =>
      if dc.display.Some? then Some((dc.display.value, LincChar(after, EntryValue(k)))) else None
    case _ => None
  }

  /** The table after the first `n` visits, each visit that shows a
      character overwriting what an earlier one stored for it. */
  function BuildMapping(n: nat): (m: Mapping)
    requires n <= EntryCount
    ensures Sound(m)
    ensures forall c :: c in m ==> m[c].state.colour == Black
    ensures forall k :: 0 <= k < n && EntryDisplay(k).Some? ==> EntryDisplay(k).value in m
  {
    if n == 0 then map[]
    else
      var m := BuildMapping(n - 1);
      var visit := Visit(n - 1);
      if visit.Some? then m[visit.value.0 := visit.value.1] else m
  }

  /** Only characters some visit shows are in the table. */
  lemma {:induction false} MappingDomain(n: nat, c: char)
    requires n <= EntryCount
    requires c in BuildMapping(n)
    ensures exists k :: 0 <= k < n && EntryDisplay(k) == Some(c)
  {
    if n > 0 {
      if Visit(n - 1).Some? && Visit(n - 1).value.0 == c {
        assert EntryDisplay(n - 1) == Some(c);
      } else {
        MappingDomain(n - 1, c);
      }
    }
  }

  /** A visit that shows a character inserts it with the visit's state
      and code. */
  lemma VisitShows(k: nat, c: char)
    requires k < EntryCount
    requires EntryDisplay(k) == Some(c)
    ensures Visit(k) == Some((c, LincChar(EntryState(k), EntryValue(k))))
  {
    var v := Visit(k);
    assert v.Some?;
    assert v.value == (EntryDisplay(k).value, LincChar(EntryState(k), EntryValue(k)));
  }

  /** The table keeps the last visit that shows a character. */
  lemma {:induction false} LastVisitWins(n: nat, c: char, k: nat)
    requires k < n <= EntryCount
    requires EntryDisplay(k) == Some(c)
    requires forall j :: k < j < n ==> EntryDisplay(j) != Some(c)
    ensures c in BuildMapping(n) && BuildMapping(n)[c] == LincChar(EntryState(k), EntryValue(k))
  {
    var previous := BuildMapping(n - 1);
    var visit := Visit(n - 1);
    if n - 1 > k {
      LastVisitWins(n - 1, c, k);
      assert EntryDisplay(n - 1) != Some(c);
      assert visit.None? || visit.value.0 != c;
    } else {
      VisitShows(k, c);
    }
  }

  /** `UnicodeToLincolnMapping::new`. */
  function NewMapping(): (m: Mapping)
    ensures Sound(m)
    ensures forall k :: 0 <= k < EntryCount && EntryDisplay(k).Some? ==> EntryDisplay(k).value in m
  {
    BuildMapping(EntryCount)
  }

  function CaseCode(uppercase: bool): Byte {
    if uppercase then 0x3D else 0x3C   // 0o75, 0o74
  }

  function ScriptCode(script: Script): Byte {
    match script
    case Super => 0x34    // 0o64
    case Normal => 0x35   // 0o65
    case Sub => 0x36      // 0o66
  }

  /** The case codes the encoder emits are the decoder's case shifts. */
  lemma CaseCodeShifts(uppercase: bool, state: LincolnState)
    ensures IsShiftCode(CaseCode(uppercase))
    ensures Shifted(state, Meaning(CaseCode(uppercase))) == state.(uppercase := uppercase)
  {
    if uppercase {
      assert Meaning(0x3D) == CaseShift(true);
    } else {
      assert Meaning(0x3C) == CaseShift(false);
    }
  }

  /** The script codes the encoder emits are the decoder's script shifts. */
  lemma ScriptCodeShifts(script: Script, state: LincolnState)
    ensures IsShiftCode(ScriptCode(script))
    ensures Shifted(state, Meaning(ScriptCode(script))) == state.(script := script)
  {
    match script
    case Super => assert Meaning(0x34) == ScriptShift(Super);
    case Normal => assert Meaning(0x35) == ScriptShift(Normal);
    case Sub => assert Meaning(0x36) == ScriptShift(Sub);
  }

  /** The case shift emitted before a character: none when the case is
      already the one last emitted. */
  function CasePrefix(current: Option<bool>, uppercase: bool): (b: seq<Byte>)
    ensures b == [] <==> current == Some(uppercase)
    ensures b != [] ==> b == [CaseCode(uppercase)]
  {
    if current == Some(uppercase) then [] else [CaseCode(uppercase)]
  }

  /** The script shift emitted before a character: none when the script
      is already the one last emitted. */
  function ScriptPrefix(current: Option<Script>, script: Script): (b: seq<Byte>)
    ensures b == [] <==> current == Some(script)
    ensures b != [] ==> b == [ScriptCode(script)]
  {
    if current == Some(script) then [] else [ScriptCode(script)]
  }

  /** Decoding through a case prefix lands in the emitted case, provided
      the decoder already agrees with the case last emitted. */
  lemma DecodeCasePrefix(current: Option<bool>, uppercase: bool, tail: seq<Byte>,
                         state: LincolnState, text: string)
    requires current.Some? ==> state.uppercase == current.value
    requires DecodeFrom(tail, state.(uppercase := uppercase)) == Ok(text)
    ensures DecodeFrom(CasePrefix(current, uppercase) + tail, state) == Ok(text)
  {
    if current != Some(uppercase) {
      var all := [CaseCode(uppercase)] + tail;
      assert all[1..] == tail;
      CaseCodeShifts(uppercase, state);
      DecodeShiftStep(all, state, state.(uppercase := uppercase), text);
    } else {
      assert CasePrefix(current, uppercase) + tail == tail;
    }
  }

  lemma DecodeScriptPrefix(current: Option<Script>, script: Script, tail: seq<Byte>,
                           state: LincolnState, text: string)
    requires current.Some? ==> state.script == current.value
    requires DecodeFrom(tail, state.(script := script)) == Ok(text)
    ensures DecodeFrom(ScriptPrefix(current, script) + tail, state) == Ok(text)
  {
    if current != Some(script) {
      var all := [ScriptCode(script)] + tail;
      assert all[1..] == tail;
      ScriptCodeShifts(script, state);
      DecodeShiftStep(all, state, state.(script := script), text);
    } else {
      assert ScriptPrefix(current, script) + tail == tail;
    }
  }

  /** The loop of `to_lincoln`, with the case and script last emitted
      (`None` before the first character). */
  function EncodeFrom(m: Mapping, s: string, currentUppercase: Option<bool>, currentScript: Option<Script>)
    : (r: Result<seq<Byte>, UnicodeToLincolnConversionFailure>)
    ensures r.Ok? <==> forall i :: 0 <= i < |s| ==> s[i] in m
    ensures r.Err? ==> exists i :: 0 <= i < |s| && s[i] !in m && r.error == NoMappingFor(s[i])
                                   && forall j :: 0 <= j < i ==> s[j] in m
    ensures r.Ok? ==> |s| <= |r.value| <= 3 * |s|
    decreases |s|
  {
    if |s| == 0 then Ok([])
    else if s[0] !in m then Err(NoMappingFor(s[0]))
    else
      var lc := m[s[0]];
      var rest := EncodeFrom(m, s[1..], Some(lc.state.uppercase), Some(lc.state.script));
      if rest.Ok? then
        Ok(CasePrefix(currentUppercase, lc.state.uppercase) + ScriptPrefix(currentScript, lc.state.script)
           + [lc.value] + rest.value)
      else rest
  }

  /** `to_lincoln`: the first character has both its case and its script
      shift emitted. */
  function ToLincoln(m: Mapping, s: string): (r: Result<seq<Byte>, UnicodeToLincolnConversionFailure>)
    ensures r.Ok? <==> forall i :: 0 <= i < |s| ==> s[i] in m
    ensures r.Ok? && |s| > 0 ==> |r.value| >= 3 && r.value[0] in {0x3C, 0x3D} && r.value[1] in {0x34, 0x35, 0x36}
  {
    EncodeFrom(m, s, None, None)
  }

  /** One step of the encoder: the shifts the first character needs, its
      code, then the rest encoded from the first character's state. */
  lemma EncodeStep(m: Mapping, s: string, currentUppercase: Option<bool>, currentScript: Option<Script>)
    requires EncodeFrom(m, s, currentUppercase, currentScript).Ok? && |s| > 0
    ensures s[0] in m
    ensures EncodeFrom(m, s[1..], Some(m[s[0]].state.uppercase), Some(m[s[0]].state.script)).Ok?
    ensures EncodeFrom(m, s, currentUppercase, currentScript).value
            == CasePrefix(currentUppercase, m[s[0]].state.uppercase)
               + ScriptPrefix(currentScript, m[s[0]].state.script)
               + [m[s[0]].value]
               + EncodeFrom(m, s[1..], Some(m[s[0]].state.uppercase), Some(m[s[0]].state.script)).value
  {
  }

  /** A first character in the case and script last emitted is encoded
      by its code alone, in front of the rest. */
  lemma NoShiftStep(m: Mapping, s: string, uppercase: bool, script: Script)
    requires |s| > 0 && s[0] in m && m[s[0]].state.uppercase == uppercase && m[s[0]].state.script == script
    requires EncodeFrom(m, s[1..], Some(uppercase), Some(script)).Ok?
    ensures EncodeFrom(m, s, Some(uppercase), Some(script)).Ok?
    ensures EncodeFrom(m, s, Some(uppercase), Some(script)).value
            == [m[s[0]].value] + EncodeFrom(m, s[1..], Some(uppercase), Some(script)).value
  {
    var rest := EncodeFrom(m, s[1..], Some(uppercase), Some(script));
    assert CasePrefix(Some(uppercase), uppercase) == [] && ScriptPrefix(Some(script), script) == [];
    assert [] + [] + [m[s[0]].value] + rest.value == [m[s[0]].value] + rest.value;
  }

  /** Characters all in the case and script last emitted get no shift
      codes: each is encoded by its own code alone. */
  lemma {:induction false} SameStateNeedsNoShifts(m: Mapping, s: string, uppercase: bool, script: Script)
    requires forall i :: 0 <= i < |s| ==>
      s[i] in m && m[s[i]].state.uppercase == uppercase && m[s[i]].state.script == script
    ensures EncodeFrom(m, s, Some(uppercase), Some(script)).Ok?
    ensures |EncodeFrom(m, s, Some(uppercase), Some(script)).value| == |s|
    ensures forall i :: 0 <= i < |s| ==> EncodeFrom(m, s, Some(uppercase), Some(script)).value[i] == m[s[i]].value
    decreases |s|
  {
    if |s| > 0 {
      SameStateNeedsNoShifts(m, s[1..], uppercase, script);
      NoShiftStep(m, s, uppercase, script);
      var rest := EncodeFrom(m, s[1..], Some(uppercase), Some(script)).value;
      var all := EncodeFrom(m, s, Some(uppercase), Some(script)).value;
      forall i | 0 <= i < |s| ensures all[i] == m[s[i]].value {
        if i > 0 {
          assert all[i] == rest[i - 1];
          assert s[1..][i - 1] == s[i];
        }
      }
    }
  }

  /** A non-empty text whose characters share one case and one script is
      encoded as that case shift, that script shift, and then one code per
      character. */
  lemma OneStateText(m: Mapping, s: string, uppercase: bool, script: Script)
    requires |s| > 0
    requires forall i :: 0 <= i < |s| ==>
      s[i] in m && m[s[i]].state.uppercase == uppercase && m[s[i]].state.script == script
    ensures ToLincoln(m, s).Ok?
    ensures |ToLincoln(m, s).value| == |s| + 2
    ensures ToLincoln(m, s).value[..2] == [CaseCode(uppercase), ScriptCode(script)]
    ensures forall i :: 0 <= i < |s| ==> ToLincoln(m, s).value[i + 2] == m[s[i]].value
  {
    SameStateNeedsNoShifts(m, s[1..], uppercase, script);
    var rest := EncodeFrom(m, s[1..], Some(uppercase), Some(script)).value;
    var all := ToLincoln(m, s).value;
    EncodeStep(m, s, None, None);
    assert all == [CaseCode(uppercase)] + [ScriptCode(script)] + [m[s[0]].value] + rest;
    forall i | 0 <= i < |s| ensures all[i + 2] == m[s[i]].value {
      if i > 0 {
        assert all[i + 2] == rest[i - 1];
        assert s[1..][i - 1] == s[i];
      }
    }
  }

  /** Concatenation regrouped from the left to the right. */
  lemma Regroup(a: seq<Byte>, b: seq<Byte>, c: seq<Byte>, d: seq<Byte>)
    ensures a + b + c + d == a + (b + (c + d))
  {
  }

  /** A code that shows the first character, then codes for the rest. */
  lemma DecodeCodeThenRest(code: Byte, rest: seq<Byte>, state: LincolnState, s: string)
    requires |s| > 0 && IsCharacterCode(code)
    requires Display(BaseChar(code, state.uppercase), state.script) == Some(s[0])
    requires DecodeFrom(rest, state) == Ok(s[1..])
    ensures DecodeFrom([code] + rest, state) == Ok(s)
  {
    var tail := [code] + rest;
    assert tail[1..] == rest;
    DecodeCharacterStep(tail, state, s);
  }

  /** Decoding one encoder step: the shifts, then a code that shows the
      first character in the shifted state, then codes that decode to the
      rest of the text from that state. */
  lemma DecodeEncodedStep(currentUppercase: Option<bool>, currentScript: Option<Script>, lc: LincChar,
                          rest: seq<Byte>, state: LincolnState, s: string)
    requires |s| > 0
    requires IsCharacterCode(lc.value)
    requires Display(BaseChar(lc.value, lc.state.uppercase), lc.state.script) == Some(s[0])
    requires currentUppercase.Some? ==> state.uppercase == currentUppercase.value
    requires currentScript.Some? ==> state.script == currentScript.value
    requires DecodeFrom(rest, state.(uppercase := lc.state.uppercase).(script := lc.state.script)) == Ok(s[1..])
    ensures DecodeFrom(CasePrefix(currentUppercase, lc.state.uppercase) + ScriptPrefix(currentScript, lc.state.script)
                       + [lc.value] + rest, state) == Ok(s)
  {
    var afterCase := state.(uppercase := lc.state.uppercase);
    var casePrefix := CasePrefix(currentUppercase, lc.state.uppercase);
    var scriptPrefix := ScriptPrefix(currentScript, lc.state.script);
    DecodeCodeThenRest(lc.value, rest, afterCase.(script := lc.state.script), s);
    DecodeScriptPrefix(currentScript, lc.state.script, [lc.value] + rest, afterCase, s);
    DecodeCasePrefix(currentUppercase, lc.state.uppercase, scriptPrefix + ([lc.value] + rest), state, s);
    Regroup(casePrefix, scriptPrefix, [lc.value], rest);
  }

  /** Decoding what the encoder produced from a decoder state agreeing
      with the case and script the encoder last emitted gives back the
      text. */
  lemma {:induction false} RoundTripFrom(m: Mapping, s: string, currentUppercase: Option<bool>,
                                         currentScript: Option<Script>, state: LincolnState)
    requires Sound(m)
    requires EncodeFrom(m, s, currentUppercase, currentScript).Ok?
    requires currentUppercase.Some? ==> state.uppercase == currentUppercase.value
    requires currentScript.Some? ==> state.script == currentScript.value
    ensures DecodeFrom(EncodeFrom(m, s, currentUppercase, currentScript).value, state) == Ok(s)
    decreases |s|
  {
    if |s| > 0 {
      EncodeStep(m, s, currentUppercase, currentScript);
      var lc := m[s[0]];
      var u := lc.state.uppercase;
      var sc := lc.state.script;
      RoundTripFrom(m, s[1..], Some(u), Some(sc), state.(uppercase := u).(script := sc));
      DecodeEncodedStep(currentUppercase, currentScript, lc, EncodeFrom(m, s[1..], Some(u), Some(sc)).value, state, s);
    }
  }

  /** With any sound mapping, a text whose characters are all mapped is
      encoded, and the strict decoder turns the codes back into the text. */
  lemma SoundMappingRoundTrip(m: Mapping, s: string)
    requires Sound(m)
    requires forall i :: 0 <= i < |s| ==> s[i] in m
    ensures ToLincoln(m, s).Ok?
    ensures LincolnToUnicodeStrict(ToLincoln(m, s).value) == Ok(s)
  {
    RoundTripFrom(m, s, None, None, DefaultState);
  }

  /** The `round_trip` property: whatever the encoder accepts, the strict
      decoder turns back into the same text. */
  lemma RoundTrip(s: string)
    requires ToLincoln(NewMapping(), s).Ok?
    ensures LincolnToUnicodeStrict(ToLincoln(NewMapping(), s).value) == Ok(s)
  {
    SoundMappingRoundTrip(NewMapping(), s);
  }

  // Cases from the source's `round_trip` test.

  /** Upper-case 'Y' and 'Z' have no superscript form, but the normal
      upper-case pass maps them. */
  lemma YZMapped()
    ensures 'Y' in NewMapping() && 'Z' in NewMapping()
  {
    EntryShowsY();
    EntryShowsZ();
  }

  /** Entry 104 is code 0o50 in the upper-case normal pass: 'Y'. */
  lemma EntryShowsY()
    ensures EntryDisplay(104) == Some('Y')
  {
    assert EntryState(104) == LincolnState(Normal, true, Black) && EntryValue(104) == 0x28;
  }

  /** Entry 105 is code 0o51 in the same pass: 'Z'. */
  lemma EntryShowsZ()
    ensures EntryDisplay(105) == Some('Z')
  {
    assert EntryState(105) == LincolnState(Normal, true, Black) && EntryValue(105) == 0x29;
  }

  /** So "YZ" is encodable and comes back unchanged. */
  lemma YZRoundTrips()
    ensures ToLincoln(NewMapping(), "YZ").Ok?
    ensures LincolnToUnicodeStrict(ToLincoln(NewMapping(), "YZ").value) == Ok("YZ")
  {
    YZMapped();
    RoundTrip("YZ");
  }

  /** Subscript two is reached through the upper-case subscript pass. */
  lemma SubscriptTwoRoundTrips()
    ensures ToLincoln(NewMapping(), "\U{2082}").Ok?
    ensures LincolnToUnicodeStrict(ToLincoln(NewMapping(), "\U{2082}").value) == Ok("\U{2082}")
  {
    assert EntryDisplay(322) == Some('\U{2082}');
    RoundTrip("\U{2082}");
  }
}
