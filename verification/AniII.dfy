/** ANI-II codes in SIP headers: the reader's priority order and parameter extraction, the writer for the
    outbound leg, and what reading back after writing gives. Header text is a sequence of characters. */
module AniII {
  import opened Common

  datatype Code =
    | RegularLine | MultipartyLine | AniNotAvailable | AniNotAvailableSpecial | HotelNonRegistered
    | HotelRegistered | WirelessRoaming | CoinNonCoinUncertainty | OriginatingLineUnidentified
    | PayStationNetworkCoin | PrisonInmate | CellularHome | CellularRoaming | PayStationNonNetworkCoin | Reserved

  datatype Source = RemotePartyId | PAssertedIdentity | FromHeader | CustomHeader

  datatype Info = Info(code: Code, rawDigit: nat, source: Source, triggersSurcharge: bool)

  type Headers = map<string, string>

  function CodeOf(digit: nat): Option<Code> {
    match digit
    case 0 => Some(RegularLine)
    case 1 => Some(MultipartyLine)
    case 2 => Some(AniNotAvailable)
    case 6 => Some(AniNotAvailableSpecial)
    case 7 => Some(HotelNonRegistered)
    case 8 => Some(HotelRegistered)
    case 15 => Some(WirelessRoaming)
    case 23 => Some(CoinNonCoinUncertainty)
    case 25 => Some(OriginatingLineUnidentified)
    case 27 => Some(PayStationNetworkCoin)
    case 32 => Some(PrisonInmate)
    case 61 => Some(CellularHome)
    case 62 => Some(CellularRoaming)
    case 70 => Some(PayStationNonNetworkCoin)
    case 99 => Some(Reserved)
    case _ => None
  }

  predicate IsPayphone(code: Code) {
    code.CoinNonCoinUncertainty? || code.PayStationNetworkCoin? || code.PayStationNonNetworkCoin?
  }

  function InfoOf(digit: nat, source: Source): Option<Info> {
    var code := CodeOf(digit);
    if code.None? then None else Some(Info(code.value, digit, source, IsPayphone(code.value)))
  }

  /** Information as only `InfoOf` makes it. */
  ghost predicate Genuine(info: Info) {
    InfoOf(info.rawDigit, info.source) == Some(info)
  }

  lemma GenuineBelow100(info: Info)
    requires Genuine(info)
    ensures info.rawDigit < 100
  {
  }

  // ---------- Text ----------

  /** The first place where the pattern occurs. */
  function Find(text: string, pattern: string): (r: Option<nat>)
    ensures r.Some? ==> r.value + |pattern| <= |text| && text[r.value..][..|pattern|] == pattern
  {
    if pattern <= text then Some(0)
    else if text == "" then None
    else
      var later := Find(text[1..], pattern);
      if later.None? then None else Some(later.value + 1)
  }

  ghost predicate OccursAt(text: string, pattern: string, i: nat) {
    i + |pattern| <= |text| && text[i..i + |pattern|] == pattern
  }

  lemma OccursLater(text: string, pattern: string, i: nat)
    requires text != ""
    ensures OccursAt(text[1..], pattern, i) <==> OccursAt(text, pattern, i + 1)
  {
    if i + 1 + |pattern| <= |text| {
      assert text[1..][i..i + |pattern|] == text[i + 1..i + 1 + |pattern|];
    }
  }

  lemma {:induction false} FindIsFirst(text: string, pattern: string)
    ensures match Find(text, pattern)
            case Some(i) => OccursAt(text, pattern, i) && forall j: nat :: j < i ==> !OccursAt(text, pattern, j)
            case None => forall j: nat :: !OccursAt(text, pattern, j)
  {
    if pattern <= text {
      assert OccursAt(text, pattern, 0);
    } else if text != "" {
      FindIsFirst(text[1..], pattern);
      forall j: nat ensures OccursAt(text[1..], pattern, j) <==> OccursAt(text, pattern, j + 1) {
        OccursLater(text, pattern, j);
      }
      assert !OccursAt(text, pattern, 0);
      forall j: nat | j > 0 ensures OccursAt(text, pattern, j) <==> OccursAt(text[1..], pattern, j - 1) {
        OccursLater(text, pattern, j - 1);
      }
    }
  }

  predicate Contains(text: string, pattern: string) {
    Find(text, pattern).Some?
  }

  predicate IsDigit(c: char) {
    '0' <= c <= '9'
  }

  /** The digits at the start of the text. */
  function LeadingDigits(text: string): (digits: string)
    ensures digits <= text && forall c :: c in digits ==> IsDigit(c)
  {
    if text != "" && IsDigit(text[0]) then [text[0]] + LeadingDigits(text[1..]) else ""
  }

  predicate AllDigits(text: string) {
    forall c :: c in text ==> IsDigit(c)
  }

  function Value(digits: string): nat
    requires AllDigits(digits)
  {
    if digits == "" then 0
    else
      var last := digits[|digits| - 1];
      assert last in digits;
      Value(digits[..|digits| - 1]) * 10 + (last as int - '0' as int)
  }

  /** The decimal text of a number, as `{}` formats it. */
  function Decimal(n: nat): (text: string)
    ensures text != "" && AllDigits(text)
  {
    if n < 10 then [('0' as int + n) as char] else Decimal(n / 10) + [('0' as int + n % 10) as char]
  }

  lemma {:induction false} DecimalValue(n: nat)
    ensures Value(Decimal(n)) == n
  {
    if n >= 10 {
      DecimalValue(n / 10);
      assert Decimal(n)[..|Decimal(n)| - 1] == Decimal(n / 10);
    } else {
      assert Decimal(n)[..0] == "";
    }
  }

  lemma DecimalShort(n: nat)
    requires n < 100
    ensures 1 <= |Decimal(n)| <= 2
  {
  }

  // ---------- The reader ----------

  const MARKER := ";ani-ii="

  function ParameterOf(digits: string, source: Source): Option<Info>
    requires AllDigits(digits)
  {
    if 1 <= |digits| <= 2 then InfoOf(Value(digits), source) else None
  }

  function ExtractParameter(header: string, source: Source): Option<Info> {
    var start := Find(header, MARKER);
    if start.None? then None else ParameterOf(LeadingDigits(header[start.value + |MARKER|..]), source)
  }

  /** The extraction as it runs: digits are pushed one by one until something else comes. */
  method ExtractAniIIParameter(header: string, source: Source) returns (info: Option<Info>)
    ensures info == ExtractParameter(header, source)
  {
    var start := Find(header, MARKER);
    if start.None? {
      return None;
    }
    var digits := PushDigits(header[start.value + |MARKER|..]);
    info := ParameterOf(digits, source);
  }

  method PushDigits(remaining: string) returns (digits: string)
    ensures digits == LeadingDigits(remaining)
  {
    digits := "";
    var i := 0;
    while i < |remaining| && IsDigit(remaining[i])
      invariant 0 <= i <= |remaining|
      invariant LeadingDigits(remaining) == digits + LeadingDigits(remaining[i..])
    {
      OneMoreDigit(remaining, digits, i);
      digits := digits + [remaining[i]];
      i := i + 1;
    }
    NoMoreDigits(remaining, i);
    assert digits + "" == digits;
  }

  lemma NoMoreDigits(text: string, i: nat)
    requires i <= |text| && (i < |text| ==> !IsDigit(text[i]))
    ensures LeadingDigits(text[i..]) == ""
  {
  }

  lemma OneMoreDigit(text: string, digits: string, i: nat)
    requires i < |text| && IsDigit(text[i])
    ensures digits + LeadingDigits(text[i..]) == (digits + [text[i]]) + LeadingDigits(text[i + 1..])
  {
    assert text[i..][1..] == text[i + 1..];
  }

  predicate IsWhitespace(c: char) {
    var n := c as int;
    0x09 <= n <= 0x0D || n == 0x20 || n == 0x85 || n == 0xA0 || n == 0x1680 || 0x2000 <= n <= 0x200A
    || n == 0x2028 || n == 0x2029 || n == 0x202F || n == 0x205F || n == 0x3000
  }

  function Trim(text: string): string {
    if text == "" then ""
    else if IsWhitespace(text[0]) then Trim(text[1..])
    else if IsWhitespace(text[|text| - 1]) then Trim(text[..|text| - 1])
    else text
  }

  /** Parsing an unsigned octet: an optional plus sign, then digits of value at most 255. */
  function ParseOctet(text: string): Option<nat> {
    var digits := if text != "" && text[0] == '+' then text[1..] else text;
    if digits != "" && AllDigits(digits) && Value(digits) <= 255 then Some(Value(digits)) else None
  }

  function FromText(headers: Headers, name: string, source: Source): Option<Info> {
    if name in headers then ExtractParameter(headers[name], source) else None
  }

  function FromCustom(headers: Headers): Option<Info> {
    if "X-ANI-II" !in headers then None
    else
      var digit := ParseOctet(Trim(headers["X-ANI-II"]));
      if digit.None? then None else InfoOf(digit.value, CustomHeader)
  }

  function OrElse(a: Option<Info>, b: Option<Info>): Option<Info> {
    if a.Some? then a else b
  }

  /** Remote-Party-ID, then P-Asserted-Identity, then X-ANI-II, then From. */
  function ParseHeaders(headers: Headers): Option<Info> {
    OrElse(FromText(headers, "Remote-Party-ID", RemotePartyId),
    OrElse(FromText(headers, "P-Asserted-Identity", PAssertedIdentity),
    OrElse(FromCustom(headers),
           FromText(headers, "From", FromHeader))))
  }

  // ---------- The writer ----------

  const ANONYMOUS := "<sip:anonymous@127.0.0.1>;" + "party=calling;privacy=off"
  const CALLING := "<sip:calling@carrier.com>"

  function Marked(text: string, info: Info): string {
    text + MARKER + Decimal(info.rawDigit)
  }

  function WriteRemoteParty(headers: Headers, info: Info): Headers {
    if "Remote-Party-ID" !in headers then
      headers["Remote-Party-ID" := Marked(ANONYMOUS, info)]
    else if !Contains(headers["Remote-Party-ID"], "ani-ii=") then
      headers["Remote-Party-ID" := Marked(headers["Remote-Party-ID"], info)]
    else headers
  }

  function WriteHeaders(headers: Headers, info: Option<Info>): Headers {
    if info.None? then headers
    else
      var custom := WriteRemoteParty(headers, info.value)["X-ANI-II" := Decimal(info.value.rawDigit)];
      if "P-Asserted-Identity" in custom then custom
      else custom["P-Asserted-Identity" := Marked(CALLING, info.value)]
  }

  method AddAniIIToHeaders(headers: Headers, info: Option<Info>) returns (updated: Headers)
    ensures updated == WriteHeaders(headers, info)
  {
    updated := headers;
    if info.Some? {
      var digits := Decimal(info.value.rawDigit);
      if "Remote-Party-ID" !in updated {
        updated := updated["Remote-Party-ID" := ANONYMOUS + ";ani-ii=" + digits];
      } else {
        var existing := updated["Remote-Party-ID"];
        if !Contains(existing, "ani-ii=") {
          updated := updated["Remote-Party-ID" := existing + ";ani-ii=" + digits];
        }
      }
      updated := updated["X-ANI-II" := digits];
      if "P-Asserted-Identity" !in updated {
        updated := updated["P-Asserted-Identity" := CALLING + ";ani-ii=" + digits];
      }
    }
  }

  /** What writing does to every header: the custom header is set, a Remote-Party-ID without a code gets the
      parameter at its end, missing ones are made, and everything else stays. */
  lemma WriteExactly(headers: Headers, info: Info)
    ensures var written, digits := WriteHeaders(headers, Some(info)), Decimal(info.rawDigit);
            && written.Keys == headers.Keys + {"Remote-Party-ID", "X-ANI-II", "P-Asserted-Identity"}
            && written["X-ANI-II"] == digits
            && written["P-Asserted-Identity"] ==
                 (if "P-Asserted-Identity" in headers then headers["P-Asserted-Identity"]
                  else "<sip:calling@carrier.com>" + ";ani-ii=" + digits)
            && written["Remote-Party-ID"] ==
                 (if "Remote-Party-ID" !in headers
                  then "<sip:anonymous@127.0.0.1>;" + "party=calling;privacy=off" + ";ani-ii=" + digits
                  else if Contains(headers["Remote-Party-ID"], "ani-ii=") then headers["Remote-Party-ID"]
                  else headers["Remote-Party-ID"] + ";ani-ii=" + digits)
            && (forall name :: name in headers && name !in {"Remote-Party-ID", "X-ANI-II", "P-Asserted-Identity"} ==>
                  written[name] == headers[name])
  {
    HeaderNames();
  }

  lemma HeaderNames()
    ensures "Remote-Party-ID" != "X-ANI-II" && "Remote-Party-ID" != "P-Asserted-Identity"
    ensures "P-Asserted-Identity" != "X-ANI-II"
  {
    assert "P-Asserted-Identity"[0] != "X-ANI-II"[0];
  }

  // ---------- Reading back ----------

  /** Text without "ani-ii=" followed by the marker has its first marker right there: none lies earlier
      within the text, and none straddles the join, whatever the text ends with. */
  lemma MarkerFoundAtJoin(text: string, rest: string)
    requires !Contains(text, "ani-ii=")
    ensures Find(text + MARKER + rest, MARKER) == Some(|text|)
  {
    var whole := text + MARKER + rest;
    FindIsFirst(text, "ani-ii=");
    FindIsFirst(whole, MARKER);
    assert OccursAt(whole, MARKER, |text|);
    forall i: nat | i < |text| ensures !OccursAt(whole, MARKER, i) {
      NoEarlierMarker(text, rest, i);
    }
  }

  lemma NoEarlierMarker(text: string, rest: string, i: nat)
    requires i < |text| && forall j: nat :: !OccursAt(text, "ani-ii=", j)
    ensures !OccursAt(text + MARKER + rest, MARKER, i)
  {
    var whole := text + MARKER + rest;
    if i + 8 <= |text| {
      assert !OccursAt(text, "ani-ii=", i + 1);
      assert whole[i..i + 8][1..] == text[i + 1..i + 8];
      assert MARKER[1..] == "ani-ii=";
    } else if i + 8 <= |whole| {
      var k := |text| - i;
      assert whole[i..i + 8][k] == whole[|text|] == MARKER[0];
      assert MARKER[k] != MARKER[0];
    }
  }

  lemma {:induction false} AllLeading(digits: string)
    requires AllDigits(digits)
    ensures LeadingDigits(digits) == digits
  {
    if digits != "" {
      AllLeading(digits[1..]);
    }
  }

  lemma ExtractMarked(text: string, info: Info, source: Source)
    requires !Contains(text, "ani-ii=") && Genuine(info)
    ensures ExtractParameter(Marked(text, info), source) == Some(info.(source := source))
  {
    var digits := Decimal(info.rawDigit);
    MarkerFoundAtJoin(text, digits);
    assert Marked(text, info)[|text| + |MARKER|..] == digits;
    AllLeading(digits);
    DecimalValue(info.rawDigit);
    GenuineBelow100(info);
    DecimalShort(info.rawDigit);
  }

  /** A text without a character of the pattern does not contain the pattern. */
  lemma MissingCharacter(text: string, pattern: string, c: char)
    requires c in pattern && c !in text
    ensures !Contains(text, pattern)
  {
    FindIsFirst(text, pattern);
    forall i: nat ensures !OccursAt(text, pattern, i) {
      if i + |pattern| <= |text| {
        assert c !in text[i..i + |pattern|];
      }
    }
  }

  lemma TemplatesUnmarked()
    ensures !Contains(ANONYMOUS, "ani-ii=") && !Contains(CALLING, "ani-ii=")
  {
    assert "ani-ii="[3] == '-';
    assert '-' !in "<sip:anonymous@127.0.0.1>;" && '-' !in "party=calling;privacy=off";
    assert '-' !in CALLING;
    MissingCharacter(ANONYMOUS, "ani-ii=", '-');
    MissingCharacter(CALLING, "ani-ii=", '-');
  }

  predicate RemotePartyMarked(headers: Headers) {
    "Remote-Party-ID" in headers && Contains(headers["Remote-Party-ID"], "ani-ii=")
  }

  lemma RemotePartyWritten(headers: Headers, info: Info)
    requires !RemotePartyMarked(headers)
    ensures var text := if "Remote-Party-ID" in headers then headers["Remote-Party-ID"] else ANONYMOUS;
            var written := WriteHeaders(headers, Some(info));
            "Remote-Party-ID" in written && written["Remote-Party-ID"] == Marked(text, info)
  {
    var first := WriteRemoteParty(headers, info);
    assert "Remote-Party-ID" != "X-ANI-II" && "Remote-Party-ID" != "P-Asserted-Identity";
  }

  lemma RemotePartyRead(headers: Headers, text: string, info: Info)
    requires "Remote-Party-ID" in headers && headers["Remote-Party-ID"] == Marked(text, info)
    requires !Contains(text, "ani-ii=") && Genuine(info)
    ensures ParseHeaders(headers) == Some(info.(source := RemotePartyId))
  {
    ExtractMarked(text, info, RemotePartyId);
  }

  /** For headers of any content whose Remote-Party-ID, if there is one, lacks "ani-ii=": what was written
      is what is read, and it is read from Remote-Party-ID. */
  lemma ReadBack(headers: Headers, info: Info)
    requires Genuine(info) && !RemotePartyMarked(headers)
    ensures ParseHeaders(WriteHeaders(headers, Some(info))) == Some(info.(source := RemotePartyId))
  {
    TemplatesUnmarked();
    RemotePartyWritten(headers, info);
    var text := if "Remote-Party-ID" in headers then headers["Remote-Party-ID"] else ANONYMOUS;
    RemotePartyRead(WriteHeaders(headers, Some(info)), text, info);
  }

  lemma {:induction false} TrimDecimal(n: nat)
    ensures Trim(Decimal(n)) == Decimal(n)
  {
    var text := Decimal(n);
    assert IsDigit(text[0]) && IsDigit(text[|text| - 1]);
  }

  lemma ReadCustom(headers: Headers, info: Info)
    requires Genuine(info) && "X-ANI-II" in headers && headers["X-ANI-II"] == Decimal(info.rawDigit)
    ensures FromCustom(headers) == Some(info.(source := CustomHeader))
  {
    TrimDecimal(info.rawDigit);
    DecimalValue(info.rawDigit);
    GenuineBelow100(info);
    assert IsDigit(Decimal(info.rawDigit)[0]);
  }

  /** The code a reader finds ahead of anything the writer adds: from a Remote-Party-ID that mentions
      "ani-ii=", or else from a P-Asserted-Identity beside it. */
  function Prior(headers: Headers): Option<Info> {
    if !RemotePartyMarked(headers) then None
    else OrElse(FromText(headers, "Remote-Party-ID", RemotePartyId),
                FromText(headers, "P-Asserted-Identity", PAssertedIdentity))
  }

  /** For every header map some code is read back after writing; it is the written one exactly when no
      other code was there to be found first. */
  lemma ReadBackExactly(headers: Headers, info: Info)
    requires Genuine(info)
    ensures var read := ParseHeaders(WriteHeaders(headers, Some(info)));
            && read.Some?
            && (read.value.rawDigit == info.rawDigit
                <==> Prior(headers).None? || Prior(headers).value.rawDigit == info.rawDigit)
  {
    var written := WriteHeaders(headers, Some(info));
    if !RemotePartyMarked(headers) {
      ReadBack(headers, info);
    } else {
      assert written["Remote-Party-ID"] == headers["Remote-Party-ID"];
      ReadCustom(written, info);
      if "P-Asserted-Identity" in headers {
        assert written["P-Asserted-Identity"] == headers["P-Asserted-Identity"];
      } else {
        TemplatesUnmarked();
        ExtractMarked(CALLING, info, PAssertedIdentity);
      }
    }
  }

  lemma MarkedKept(headers: Headers, info: Info)
    requires RemotePartyMarked(headers)
    ensures var written := WriteHeaders(headers, Some(info));
            "Remote-Party-ID" in written && written["Remote-Party-ID"] == headers["Remote-Party-ID"]
  {
    assert "Remote-Party-ID" != "X-ANI-II" && "Remote-Party-ID" != "P-Asserted-Identity";
  }

  lemma RemotePartyFirst(headers: Headers)
    requires FromText(headers, "Remote-Party-ID", RemotePartyId).Some?
    ensures ParseHeaders(headers) == ExtractParameter(headers["Remote-Party-ID"], RemotePartyId)
  {
  }

  /** A header that already carries a code keeps it: writing 23 over 70 reads back 70. */
  lemma OldCodeWins(info: Info)
    requires InfoOf(23, RemotePartyId) == Some(info)
    ensures var headers: Headers := map["Remote-Party-ID" := ";ani-ii=70"];
            ParseHeaders(WriteHeaders(headers, Some(info))) == InfoOf(70, RemotePartyId)
  {
    var headers: Headers := map["Remote-Party-ID" := ";ani-ii=70"];
    OldText(InfoOf(70, RemotePartyId).value);
    MarkedKept(headers, info);
    RemotePartyFirst(WriteHeaders(headers, Some(info)));
  }

  lemma OldText(carried: Info)
    requires InfoOf(70, RemotePartyId) == Some(carried)
    ensures Contains(";ani-ii=70", "ani-ii=")
    ensures ExtractParameter(";ani-ii=70", RemotePartyId) == Some(carried)
  {
    assert Marked("", carried) == ";ani-ii=70" by {
      assert Decimal(70) == Decimal(7) + "0" == "70";
    }
    MarkedContains("", carried);
    ExtractMarked("", carried, RemotePartyId);
  }

  lemma MarkedContains(text: string, info: Info)
    ensures Contains(Marked(text, info), "ani-ii=")
  {
    var marked := Marked(text, info);
    FindIsFirst(marked, "ani-ii=");
    assert marked[|text| + 1..|text| + 8] == MARKER[1..] == "ani-ii=";
    assert OccursAt(marked, "ani-ii=", |text| + 1);
  }

  /** Writing twice equals writing once, for every header map. */
  lemma WriteTwice(headers: Headers, info: Option<Info>)
    ensures WriteHeaders(WriteHeaders(headers, info), info) == WriteHeaders(headers, info)
  {
    if info.Some? {
      MarkedContains(ANONYMOUS, info.value);
      if "Remote-Party-ID" in headers {
        MarkedContains(headers["Remote-Party-ID"], info.value);
      }
      var once := WriteHeaders(headers, info);
      assert RemotePartyMarked(once) && "P-Asserted-Identity" in once;
      assert once["X-ANI-II" := Decimal(info.value.rawDigit)] == once;
    }
  }

  // ---------- Codes and parameters, exactly ----------

  /** The digits of each code, as the numbering plan assigns them. */
  function DigitOf(code: Code): nat {
    match code
    case RegularLine => 0
    case MultipartyLine => 1
    case AniNotAvailable => 2
    case AniNotAvailableSpecial => 6
    case HotelNonRegistered => 7
    case HotelRegistered => 8
    case WirelessRoaming => 15
    case CoinNonCoinUncertainty => 23
    case OriginatingLineUnidentified => 25
    case PayStationNetworkCoin => 27
    case PrisonInmate => 32
    case CellularHome => 61
    case CellularRoaming => 62
    case PayStationNonNetworkCoin => 70
    case Reserved => 99
  }

  /** Digits stand for exactly the code they are assigned to, and only the three coin-phone codes 23, 27 and
      70 trigger the surcharge. */
  lemma CodesExactly(digit: nat, source: Source)
    ensures match InfoOf(digit, source)
            case Some(info) =>
              && DigitOf(info.code) == digit == info.rawDigit && info.source == source
              && (info.triggersSurcharge <==> digit in {23, 27, 70})
            case None => forall code: Code :: DigitOf(code) != digit
  {
    if InfoOf(digit, source).None? {
      forall code: Code ensures DigitOf(code) != digit {
        CodeFromDigit(code);
      }
    }
  }

  lemma CodeFromDigit(code: Code)
    ensures CodeOf(DigitOf(code)) == Some(code)
  {
    match code
    case _ =>
  }

  /** The leading digits are the whole run of digits at the start. */
  lemma {:induction false} LeadingExactly(text: string)
    ensures var n := |LeadingDigits(text)|;
            && n <= |text| && LeadingDigits(text) == text[..n]
            && (forall k :: 0 <= k < n ==> IsDigit(text[k]))
            && (n < |text| ==> !IsDigit(text[n]))
  {
    if text != "" && IsDigit(text[0]) {
      LeadingExactly(text[1..]);
      var n := |LeadingDigits(text[1..])|;
      forall k | 0 <= k < n + 1 ensures IsDigit(text[k]) {
        if k > 0 {
          assert text[k] == text[1..][k - 1];
        }
      }
      assert n < |text[1..]| ==> text[1..][n] == text[n + 1];
    }
  }

  function DigitAt(text: string, k: nat): nat
    requires k < |text| && IsDigit(text[k])
  {
    text[k] as int - '0' as int
  }

  lemma ValueOfShort(digits: string)
    requires AllDigits(digits) && 1 <= |digits| <= 2
    ensures IsDigit(digits[0]) && IsDigit(digits[|digits| - 1])
    ensures Value(digits) == if |digits| == 1 then DigitAt(digits, 0) else DigitAt(digits, 0) * 10 + DigitAt(digits, 1)
  {
    assert digits[0] in digits && digits[|digits| - 1] in digits;
    assert Value("") == 0 && digits[..1][..0] == "";
    if |digits| == 2 {
      assert Value(digits[..1]) == DigitAt(digits, 0);
    }
  }

  /** The marker is first found at i and n digits follow it, no more. */
  ghost predicate ParameterAt(header: string, i: nat, n: nat) {
    && OccursAt(header, MARKER, i) && (forall j: nat :: j < i ==> !OccursAt(header, MARKER, j))
    && i + 8 + n <= |header| && (forall k :: i + 8 <= k < i + 8 + n ==> IsDigit(header[k]))
    && (i + 8 + n < |header| ==> !IsDigit(header[i + 8 + n]))
  }

  /** What is extracted from every header: the code of the one or two digits that follow the first marker,
      nothing if more follow or none, and nothing without a marker. */
  lemma {:induction false} ExtractExactly(header: string, source: Source) returns (i: nat, n: nat)
    ensures ParameterAt(header, i, n) || forall j: nat :: !OccursAt(header, MARKER, j)
    ensures ExtractParameter(header, source) ==
            if !OccursAt(header, MARKER, i) then None
            else if n == 1 then InfoOf(DigitAt(header, i + 8), source)
            else if n == 2 then InfoOf(DigitAt(header, i + 8) * 10 + DigitAt(header, i + 9), source)
            else None
  {
    FindIsFirst(header, MARKER);
    var start := Find(header, MARKER);
    if start.None? {
      i, n := 0, 0;
    } else {
      i := start.value;
      n := RunAfter(header, i, source);
    }
  }

  lemma {:induction false} RunAfter(header: string, i: nat, source: Source) returns (n: nat)
    requires i + 8 <= |header|
    ensures i + 8 + n <= |header| && forall k :: i + 8 <= k < i + 8 + n ==> IsDigit(header[k])
    ensures i + 8 + n < |header| ==> !IsDigit(header[i + 8 + n])
    ensures ParameterOf(LeadingDigits(header[i + 8..]), source) ==
            if n == 1 then InfoOf(DigitAt(header, i + 8), source)
            else if n == 2 then InfoOf(DigitAt(header, i + 8) * 10 + DigitAt(header, i + 9), source)
            else None
  {
    var text := header[i + 8..];
    n := |LeadingDigits(text)|;
    LeadingExactly(text);
    forall k | i + 8 <= k < i + 8 + n ensures IsDigit(header[k]) {
      assert header[k] == text[k - i - 8];
    }
    if 1 <= n <= 2 {
      ValueOfShort(LeadingDigits(text));
    }
  }

  /** Trimming takes off all white space at both ends and nothing else. */
  lemma {:induction false} TrimExactly(text: string) returns (from: nat, upTo: nat)
    ensures from <= upTo <= |text| && Trim(text) == text[from..upTo]
    ensures forall k :: 0 <= k < from || upTo <= k < |text| ==> IsWhitespace(text[k])
    ensures from < upTo ==> !IsWhitespace(text[from]) && !IsWhitespace(text[upTo - 1])
    decreases |text|
  {
    if text == "" {
      from, upTo := 0, 0;
    } else if IsWhitespace(text[0]) {
      from, upTo := TrimExactly(text[1..]);
      forall k | 0 <= k < from + 1 || upTo + 1 <= k < |text| ensures IsWhitespace(text[k]) {
        if k > 0 {
          assert text[k] == text[1..][k - 1];
        }
      }
      from, upTo := from + 1, upTo + 1;
    } else if IsWhitespace(text[|text| - 1]) {
      from, upTo := TrimExactly(text[..|text| - 1]);
    } else {
      from, upTo := 0, |text|;
    }
  }
}
