/**
 * generate_params: the search request's query string. Three values are
 * percent-encoded as urllib.parse.quote(value, safe='') does: the bytes of the
 * unreserved set of RFC 3986 section 2.3 stay as they are, every other byte
 * becomes '%' and two upper-case hex digits (RFC 3986 section 2.1).
 */
module QueryString {
  import opened Errors
  import opened Seqs

  newtype byte = x: int | 0 <= x < 256

  /** ALPHA / DIGIT / "-" / "." / "_" / "~" */
  predicate Unreserved(b: byte)
  {
    ('A' as byte <= b <= 'Z' as byte) || ('a' as byte <= b <= 'z' as byte)
    || ('0' as byte <= b <= '9' as byte)
    || b == '_' as byte || b == '.' as byte || b == '-' as byte || b == '~' as byte
  }

  function HexDigit(n: int): (c: char)
    requires 0 <= n < 16
  {
    if n < 10 then (48 + n) as char else (55 + n) as char
  }

  predicate IsHexDigit(c: char)
  {
    ('0' <= c <= '9') || ('A' <= c <= 'F')
  }

  function HexValue(c: char): (n: int)
    requires IsHexDigit(c)
    ensures 0 <= n < 16
  {
    if c <= '9' then c as int - 48 else c as int - 55
  }

  /** What quote(b, safe='') writes for one byte. */
  function EncodeByte(b: byte): string
  {
    if Unreserved(b) then [b as int as char]
    else ['%', HexDigit(b as int / 16), HexDigit(b as int % 16)]
  }

  /** quote(s, safe='') on the UTF-8 bytes of s. */
  function Quote(s: seq<byte>): (t: string)
    ensures |s| <= |t| <= 3 * |s|
    decreases |s|
  {
    if |s| == 0 then [] else EncodeByte(s[0]) + Quote(s[1..])
  }

  /** Undoes percent-encoding; None for a character that is no byte. */
  function Unquote(t: string): Option<seq<byte>>
    decreases |t|
  {
    if |t| == 0 then Some([])
    else if t[0] == '%' && |t| >= 3 && IsHexDigit(t[1]) && IsHexDigit(t[2]) then
      match Unquote(t[3..])
      case Some(rest) => Some([(16 * HexValue(t[1]) + HexValue(t[2])) as byte] + rest)
      case None => None
    else if t[0] as int < 256 then
      match Unquote(t[1..])
      case Some(rest) => Some([t[0] as int as byte] + rest)
      case None => None
    else None
  }

  /** Characters that may appear in quote's output. */
  predicate QuoteChar(c: char)
  {
    c == '%' || (c as int < 256 && Unreserved(c as int as byte))
  }

  // ---------------------------------------------------------------------
  // Decimal text of page_index (str(int))

  function DigitChar(d: int): char
    requires 0 <= d < 10
  {
    (48 + d) as char
  }

  function NatDigits(n: nat): (s: string)
    ensures |s| >= 1
    ensures forall i :: 0 <= i < |s| ==> '0' <= s[i] <= '9'
    decreases n
  {
    if n < 10 then [DigitChar(n)] else NatDigits(n / 10) + [DigitChar(n % 10)]
  }

  function Decimal(n: int): string
  {
    if n < 0 then "-" + NatDigits(-n) else NatDigits(n)
  }

  function ParseDigits(s: string): Option<nat>
    decreases |s|
  {
    if |s| == 0 || !('0' <= s[|s| - 1] <= '9') then None
    else
      var d := s[|s| - 1] as int - 48;
      if |s| == 1 then Some(d)
      else match ParseDigits(s[..|s| - 1])
        case Some(m) => Some(10 * m + d)
        case None => None
  }

  /** int(text) for the text str() writes. */
  function ParseDecimal(s: string): Option<int>
  {
    if |s| > 0 && s[0] == '-' then
      match ParseDigits(s[1..])
      case Some(m) => var v: int := m; Some(-v)
      case None => None
    else
      match ParseDigits(s)
      case Some(m) => Some(m)
      case None => None
  }

  // ---------------------------------------------------------------------
  // The query string

  /** The parameter names, in the order of the dict literal. */
  const KEYS: seq<string> := [
    "searchtype", "page_index", "bidSort", "buyerName", "projectId", "pinMu",
    "bidType", "dbselect", "kw", "start_time", "end_time", "timeType",
    "displayZone", "zoneId", "pppStatus", "agentName"]

  /** The values, in the same order. */
  function Values(startTime: seq<byte>, endTime: seq<byte>, keyword: seq<byte>, pageIndex: int): seq<string>
  {
    ["1", Decimal(pageIndex), "0", "", "", "0",
     "0", "bidx", Quote(keyword), Quote(startTime), Quote(endTime), "6",
     "", "", "0", ""]
  }

  function Fields(startTime: seq<byte>, endTime: seq<byte>, keyword: seq<byte>, pageIndex: int): (fs: seq<string>)
    ensures |fs| == |KEYS|
  {
    var vs := Values(startTime, endTime, keyword, pageIndex);
    seq(|KEYS|, i requires 0 <= i < |KEYS| => KEYS[i] + "=" + vs[i])
  }

  /**
   * '&'.join(f"{key}={value}" for each parameter). No field holds an '&', so
   * splitting at '&' gives back the 16 fields name=value, in the fixed order.
   */
  function GenerateParams(startTime: seq<byte>, endTime: seq<byte>, keyword: seq<byte>, pageIndex: int): (q: string)
    ensures Split(q, '&') == Fields(startTime, endTime, keyword, pageIndex)
  {
    var fs := Fields(startTime, endTime, keyword, pageIndex);
    FieldsPlain(startTime, endTime, keyword, pageIndex);
    SplitJoin(fs, '&');
    Join(fs, '&')
  }

  /** The variable part of a request. */
  datatype Request = Request(startTime: seq<byte>, endTime: seq<byte>, keyword: seq<byte>, pageIndex: int)

  /** Reads a query string back: 16 fields with the expected names, in order. */
  function ParseParams(q: string): Option<Request>
  {
    ParseFields(Split(q, '&'))
  }

  /** Reads the fields name=value of a query string back into a request. */
  function ParseFields(fields: seq<string>): Option<Request>
  {
    if |fields| != |KEYS| then None
    else
      var pairs := seq(|KEYS|, i requires 0 <= i < |KEYS| => Split(fields[i], '='));
      if exists i :: 0 <= i < |KEYS| && (|pairs[i]| != 2 || pairs[i][0] != KEYS[i]) then None
      else
        match (Unquote(pairs[9][1]), Unquote(pairs[10][1]), Unquote(pairs[8][1]), ParseDecimal(pairs[1][1]))
        case (Some(st), Some(et), Some(kw), Some(p)) => Some(Request(st, et, kw, p))
        case _ => None
  }

  // ---------------------------------------------------------------------
  // Lemmas

  lemma HexRoundTrip(n: int)
    requires 0 <= n < 16
    ensures IsHexDigit(HexDigit(n)) && HexValue(HexDigit(n)) == n
  {
  }

  /** quote writes only unreserved characters and '%' escapes. */
  lemma {:induction false} QuoteAlphabet(s: seq<byte>)
    ensures forall i :: 0 <= i < |Quote(s)| ==> QuoteChar(Quote(s)[i]) || IsHexDigit(Quote(s)[i])
    decreases |s|
  {
    if |s| > 0 {
      QuoteAlphabet(s[1..]);
      var e := EncodeByte(s[0]);
      assert Quote(s) == e + Quote(s[1..]);
      assert forall i :: 0 <= i < |e| ==> QuoteChar(e[i]) || IsHexDigit(e[i]);
    }
  }

  /** So an encoded value holds none of the delimiters '&', '=', ':' and '/'. */
  lemma QuoteHasNoDelimiters(s: seq<byte>)
    ensures '&' !in Quote(s) && '=' !in Quote(s) && ':' !in Quote(s) && '/' !in Quote(s)
  {
    QuoteAlphabet(s);
  }

  /** An input made only of unreserved bytes is left as it is. */
  lemma {:induction false} QuoteUnreserved(s: seq<byte>)
    requires forall i :: 0 <= i < |s| ==> Unreserved(s[i])
    ensures Quote(s) == seq(|s|, i requires 0 <= i < |s| => s[i] as int as char)
    decreases |s|
  {
    if |s| > 0 {
      QuoteUnreserved(s[1..]);
    }
  }

  /** Percent-decoding undoes quote. */
  lemma {:induction false} UnquoteQuote(s: seq<byte>)
    ensures Unquote(Quote(s)) == Some(s)
    decreases |s|
  {
    if |s| > 0 {
      UnquoteQuote(s[1..]);
      var b := s[0];
      var rest := Quote(s[1..]);
      var t := EncodeByte(b) + rest;
      assert Quote(s) == t;
      if Unreserved(b) {
        assert t[0] == b as int as char && t[0] != '%';
        assert t[1..] == rest;
      } else {
        HexRoundTrip(b as int / 16);
        HexRoundTrip(b as int % 16);
        assert t[3..] == rest;
      }
      assert [s[0]] + s[1..] == s;
    }
  }

  lemma {:induction false} ParseNatDigits(n: nat)
    ensures ParseDigits(NatDigits(n)) == Some(n)
    decreases n
  {
    if n >= 10 {
      ParseNatDigits(n / 10);
      var s := NatDigits(n);
      assert s[..|s| - 1] == NatDigits(n / 10);
    }
  }

  /** int(str(n)) == n */
  lemma ParseDecimalRoundTrip(n: int)
    ensures ParseDecimal(Decimal(n)) == Some(n)
  {
    var s := Decimal(n);
    if n < 0 {
      var t := NatDigits(-n);
      ParseNatDigits(-n);
      assert s == "-" + t && s[0] == '-' && s[1..] == t;
    } else {
      ParseNatDigits(n);
      assert '0' <= s[0] <= '9';
    }
  }

  lemma DecimalHasNoDelimiters(n: int)
    ensures '&' !in Decimal(n) && '=' !in Decimal(n)
  {
    var t := NatDigits(if n < 0 then -n else n);
    assert forall i :: 0 <= i < |t| ==> '0' <= t[i] <= '9';
  }

  lemma KeysArePlain()
    ensures forall i :: 0 <= i < |KEYS| ==> '&' !in KEYS[i] && '=' !in KEYS[i]
  {
  }

  /** No field holds an '&', and no value an '='. */
  lemma FieldsPlain(startTime: seq<byte>, endTime: seq<byte>, keyword: seq<byte>, pageIndex: int)
    ensures forall i :: 0 <= i < |KEYS| ==> '&' !in Fields(startTime, endTime, keyword, pageIndex)[i]
    ensures forall i :: 0 <= i < |KEYS| ==> '=' !in Values(startTime, endTime, keyword, pageIndex)[i]
  {
    var vs := Values(startTime, endTime, keyword, pageIndex);
    QuoteHasNoDelimiters(startTime);
    QuoteHasNoDelimiters(endTime);
    QuoteHasNoDelimiters(keyword);
    DecimalHasNoDelimiters(pageIndex);
    KeysArePlain();
    var fs := Fields(startTime, endTime, keyword, pageIndex);
    forall i | 0 <= i < |fs| ensures '&' !in fs[i] {
      assert fs[i] == KEYS[i] + "=" + vs[i];
    }
  }

  /** Each field splits at '=' into its name and its value. */
  lemma FieldPairs(startTime: seq<byte>, endTime: seq<byte>, keyword: seq<byte>, pageIndex: int)
    ensures var fs, vs := Fields(startTime, endTime, keyword, pageIndex), Values(startTime, endTime, keyword, pageIndex);
      forall i :: 0 <= i < |KEYS| ==> Split(fs[i], '=') == [KEYS[i], vs[i]]
  {
    var fs, vs := Fields(startTime, endTime, keyword, pageIndex), Values(startTime, endTime, keyword, pageIndex);
    FieldsPlain(startTime, endTime, keyword, pageIndex);
    KeysArePlain();
    forall i | 0 <= i < |KEYS| ensures Split(fs[i], '=') == [KEYS[i], vs[i]] {
      SplitFirst(KEYS[i], '=', vs[i]);
      SplitPlain(vs[i], '=');
    }
  }

  /** The fields determine the request they were built from. */
  lemma ParseFieldsRoundTrip(startTime: seq<byte>, endTime: seq<byte>, keyword: seq<byte>, pageIndex: int)
    ensures ParseFields(Fields(startTime, endTime, keyword, pageIndex))
         == Some(Request(startTime, endTime, keyword, pageIndex))
  {
    var vs := Values(startTime, endTime, keyword, pageIndex);
    var fields := Fields(startTime, endTime, keyword, pageIndex);
    FieldPairs(startTime, endTime, keyword, pageIndex);
    var pairs := seq(|KEYS|, i requires 0 <= i < |KEYS| => Split(fields[i], '='));
    assert forall i :: 0 <= i < |KEYS| ==> pairs[i] == [KEYS[i], vs[i]];
    assert pairs[9][1] == Quote(startTime) && pairs[10][1] == Quote(endTime);
    assert pairs[8][1] == Quote(keyword) && pairs[1][1] == Decimal(pageIndex);
    UnquoteQuote(startTime);
    UnquoteQuote(endTime);
    UnquoteQuote(keyword);
    ParseDecimalRoundTrip(pageIndex);
  }

  /** The query string determines the request it was built from. */
  lemma ParseGenerateParams(startTime: seq<byte>, endTime: seq<byte>, keyword: seq<byte>, pageIndex: int)
    ensures ParseParams(GenerateParams(startTime, endTime, keyword, pageIndex))
         == Some(Request(startTime, endTime, keyword, pageIndex))
  {
    ParseFieldsRoundTrip(startTime, endTime, keyword, pageIndex);
  }
}
