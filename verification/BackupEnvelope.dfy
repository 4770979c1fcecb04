// Canonical JSON text and base64, and the envelopes that keep encrypted items.

module CanonicalText {
  import opened Foundations

  // ---- JSON strings ----

  function HexDigit(n: nat): char
    requires n < 16
  {
    if n < 10 then ('0' as int + n) as char else ('a' as int + n - 10) as char
  }

  function HexValue(c: char): Option<nat> {
    if '0' <= c <= '9' then Some(c as int - '0' as int)
    else if 'a' <= c <= 'f' then Some(c as int - 'a' as int + 10)
    else None
  }

  function Hex4(n: nat): string
    requires n < 0x10000
  {
    [HexDigit(n / 16 / 16 / 16), HexDigit(n / 16 / 16 % 16), HexDigit(n / 16 % 16), HexDigit(n % 16)]
  }

  function ReadHex4(s: string): Option<nat>
    requires |s| >= 4
  {
    match (HexValue(s[0]), HexValue(s[1]), HexValue(s[2]), HexValue(s[3]))
    case (Some(a), Some(b), Some(c), Some(d)) => Some(((a * 16 + b) * 16 + c) * 16 + d)
    case _ => None
  }

  lemma HexDigitReads(n: nat)
    requires n < 16
    ensures HexValue(HexDigit(n)) == Some(n)
  {
  }

  lemma Hex4Reads(n: nat, rest: string)
    requires n < 0x10000
    ensures ReadHex4(Hex4(n) + rest) == Some(n)
  {
    HexDigitReads(n / 16 / 16 / 16);
    HexDigitReads(n / 16 / 16 % 16);
    HexDigitReads(n / 16 % 16);
    HexDigitReads(n % 16);
  }

  // The escapes with a letter of their own.
  function ShortEscape(c: char): Option<char> {
    match c
    case '"' => Some('"')
    case '\\' => Some('\\')
    case '\n' => Some('n')
    case '\r' => Some('r')
    case '\t' => Some('t')
    case '\U{8}' => Some('b')
    case '\U{c}' => Some('f')
    case _ => None
  }

  function ReadShortEscape(c: char): Option<char> {
    match c
    case '"' => Some('"')
    case '\\' => Some('\\')
    case 'n' => Some('\n')
    case 'r' => Some('\r')
    case 't' => Some('\t')
    case 'b' => Some('\U{8}')
    case 'f' => Some('\U{c}')
    case _ => None
  }

  // One character inside a JSON string; `ascii` escapes everything but the
  // printable ASCII characters, as `ensure_ascii` does.
  function EscapeChar(c: char, ascii: bool): string {
    if ShortEscape(c).Some? then ['\\', ShortEscape(c).value]
    else if ' ' <= c && (c <= '~' || !ascii) then [c]
    else if c as int < 0x10000 then "\\u" + Hex4(c as int)
    else EscapeAstral(c)
  }

  // A surrogate pair
  function EscapeAstral(c: char): string
    requires c as int >= 0x10000
  {
    "\\u" + Hex4(0xd800 + (c as int - 0x10000) / 0x400) + "\\u" + Hex4(0xdc00 + (c as int - 0x10000) % 0x400)
  }

  function Escape(s: string, ascii: bool): string {
    if s == "" then "" else EscapeChar(s[0], ascii) + Escape(s[1..], ascii)
  }

  predicate HighSurrogate(n: nat) {
    0xd800 <= n < 0xdc00
  }

  predicate LowSurrogate(n: nat) {
    0xdc00 <= n < 0xe000
  }

  // Read one character of a JSON string and what follows it.
  function ReadChar(s: string): (r: Option<(char, string)>)
    ensures r.Some? ==> |r.value.1| < |s|
  {
    if s == "" || s[0] == '"' then None
    else if s[0] != '\\' then Some((s[0], s[1..]))
    else if |s| < 2 then None
    else if s[1] == 'u' then ReadUnicode(s)
    else if ReadShortEscape(s[1]).Some? then Some((ReadShortEscape(s[1]).value, s[2..]))
    else None
  }

  function ReadUnicode(s: string): (r: Option<(char, string)>)
    requires |s| >= 2
    ensures r.Some? ==> |r.value.1| < |s|
  {
    if |s| < 6 || ReadHex4(s[2..]).None? then None
    else
      var n := ReadHex4(s[2..]).value;
      if LowSurrogate(n) || n >= 0x10000 then None
      else if !HighSurrogate(n) then Some((n as char, s[6..]))
      else if |s| < 12 || s[6..8] != "\\u" || ReadHex4(s[8..]).None? then None
      else
        var low := ReadHex4(s[8..]).value;
        if LowSurrogate(low) then Some(((0x10000 + (n - 0xd800) * 0x400 + (low - 0xdc00)) as char, s[12..])) else None
  }

  // Read up to the closing quote.
  function ReadString(s: string): Option<(string, string)>
    decreases |s|
  {
    if s != "" && s[0] == '"' then Some(("", s[1..]))
    else
      match ReadChar(s)
      case None => None
      case Some((c, rest)) =>
        match ReadString(rest)
        case None => None
        case Some((value, after)) => Some(([c] + value, after))
  }

  lemma UnicodeReads(c: char, rest: string)
    requires c as int < 0x10000
    ensures ReadUnicode("\\u" + Hex4(c as int) + rest) == Some((c, rest))
  {
    var s := "\\u" + Hex4(c as int) + rest;
    assert s[2..] == Hex4(c as int) + rest;
    Hex4Reads(c as int, rest);
    assert s[6..] == rest;
  }

  lemma PairReadsFrom(s: string, high: nat, low: nat)
    requires |s| >= 12 && HighSurrogate(high) && LowSurrogate(low)
    requires ReadHex4(s[2..]) == Some(high) && s[6..8] == "\\u" && ReadHex4(s[8..]) == Some(low)
    ensures ReadUnicode(s) == Some(((0x10000 + (high - 0xd800) * 0x400 + (low - 0xdc00)) as char, s[12..]))
  {
  }

  lemma PairReads(high: nat, low: nat, rest: string)
    requires HighSurrogate(high) && LowSurrogate(low)
    ensures ReadUnicode("\\u" + Hex4(high) + "\\u" + Hex4(low) + rest)
            == Some(((0x10000 + (high - 0xd800) * 0x400 + (low - 0xdc00)) as char, rest))
  {
    var s := "\\u" + Hex4(high) + "\\u" + Hex4(low) + rest;
    assert s[2..] == Hex4(high) + ("\\u" + Hex4(low) + rest);
    Hex4Reads(high, "\\u" + Hex4(low) + rest);
    assert s[6..8] == "\\u";
    assert s[8..] == Hex4(low) + rest;
    Hex4Reads(low, rest);
    assert s[12..] == rest;
    PairReadsFrom(s, high, low);
  }

  lemma AstralReads(c: char, rest: string)
    requires c as int >= 0x10000
    ensures ReadUnicode(EscapeAstral(c) + rest) == Some((c, rest))
  {
    var n := c as int - 0x10000;
    var high, low := 0xd800 + n / 0x400, 0xdc00 + n % 0x400;
    assert EscapeAstral(c) + rest == "\\u" + Hex4(high) + "\\u" + Hex4(low) + rest;
    PairReads(high, low, rest);
    assert n / 0x400 * 0x400 + n % 0x400 == n;
  }

  // An escaped character reads back, whatever follows it.
  lemma CharReads(c: char, ascii: bool, rest: string)
    ensures ReadChar(EscapeChar(c, ascii) + rest) == Some((c, rest))
  {
    var s := EscapeChar(c, ascii) + rest;
    if ShortEscape(c).Some? {
      assert s[2..] == rest;
    } else if ' ' <= c && (c <= '~' || !ascii) {
      assert s[1..] == rest;
    } else if c as int < 0x10000 {
      assert s == "\\u" + Hex4(c as int) + rest;
      UnicodeReads(c, rest);
    } else {
      assert s[..2] == "\\u";
      AstralReads(c, rest);
    }
  }

  // A string ends exactly where it was closed.
  lemma {:induction false} StringReads(v: string, ascii: bool, rest: string)
    ensures ReadString(Escape(v, ascii) + "\"" + rest) == Some((v, rest))
  {
    if v == "" {
      assert (Escape(v, ascii) + "\"" + rest)[1..] == rest;
    } else {
      var tail := Escape(v[1..], ascii) + "\"" + rest;
      assert Escape(v, ascii) + "\"" + rest == EscapeChar(v[0], ascii) + tail;
      CharReads(v[0], ascii, tail);
      StringReads(v[1..], ascii, rest);
      EscapedNeverCloses(v[0], ascii, tail);
      assert [v[0]] + v[1..] == v;
    }
  }

  lemma EscapedNeverCloses(c: char, ascii: bool, rest: string)
    ensures (EscapeChar(c, ascii) + rest)[0] != '"'
  {
  }

  // ---- Objects with fixed keys and string values ----

  // The text of an object: fixed text alternating with escaped string values,
  // each closed by a quote.
  function Fill(fixed: seq<string>, values: seq<string>, ascii: bool): string
    requires |fixed| == |values| + 1
  {
    if values == [] then fixed[0]
    else fixed[0] + (Escape(values[0], ascii) + "\"" + Fill(fixed[1..], values[1..], ascii))
  }

  function After(s: string, prefix: string): Option<string> {
    if |prefix| <= |s| && s[..|prefix|] == prefix then Some(s[|prefix|..]) else None
  }

  function Read(fixed: seq<string>, s: string): (r: Option<seq<string>>)
    requires fixed != []
    ensures r.Some? ==> |r.value| + 1 == |fixed|
  {
    match After(s, fixed[0])
    case None => None
    case Some(rest) =>
      if |fixed| == 1 then if rest == "" then Some([]) else None
      else
        match ReadString(rest)
        case None => None
        case Some((value, more)) =>
          match Read(fixed[1..], more)
          case None => None
          case Some(values) => Some([value] + values)
  }

  // What is written reads back; so different values have different texts.
  lemma {:induction false} FillReads(fixed: seq<string>, values: seq<string>, ascii: bool)
    requires |fixed| == |values| + 1
    ensures Read(fixed, Fill(fixed, values, ascii)) == Some(values)
  {
    var s := Fill(fixed, values, ascii);
    assert s[..|fixed[0]|] == fixed[0];
    if values != [] {
      var more := Fill(fixed[1..], values[1..], ascii);
      assert After(s, fixed[0]) == Some(Escape(values[0], ascii) + "\"" + more);
      StringReads(values[0], ascii, more);
      FillReads(fixed[1..], values[1..], ascii);
      assert [values[0]] + values[1..] == values;
    }
  }

  // Read a text that is exactly what would be written for its values.
  function ReadCanonical(fixed: seq<string>, s: string): (r: Option<seq<string>>)
    requires fixed != []
    ensures r.Some? ==> |r.value| + 1 == |fixed| && Fill(fixed, r.value, true) == s
  {
    match Read(fixed, s)
    case None => None
    case Some(values) => if Fill(fixed, values, true) == s then Some(values) else None
  }

  // The same object with another text at its end.
  function Ending(fixed: seq<string>, last: string): seq<string>
    requires fixed != []
  {
    fixed[..|fixed| - 1] + [last]
  }

  // Read an object that may end in several ways.
  function ReadAny(fixed: seq<string>, endings: seq<string>, s: string): (r: Option<seq<string>>)
    requires fixed != []
    ensures r.Some? ==> |r.value| + 1 == |fixed|
  {
    if endings == [] then None
    else
      match ReadCanonical(Ending(fixed, endings[0]), s)
      case Some(values) => Some(values)
      case None => ReadAny(fixed, endings[1..], s)
  }

  // However an object ends, its values read alike.
  lemma {:induction false} EndingReads(fixed: seq<string>, other: string, last: string, values: seq<string>)
    requires |fixed| == |values| + 1
    ensures var r := Read(Ending(fixed, other), Fill(Ending(fixed, last), values, true));
            r.None? || r == Some(values)
  {
    if values != [] {
      var s := Fill(Ending(fixed, last), values, true);
      var more := Fill(Ending(fixed[1..], last), values[1..], true);
      assert Ending(fixed, last)[1..] == Ending(fixed[1..], last);
      assert Ending(fixed, other)[1..] == Ending(fixed[1..], other);
      assert After(s, fixed[0]) == Some(Escape(values[0], true) + "\"" + more);
      StringReads(values[0], true, more);
      EndingReads(fixed[1..], other, last, values[1..]);
      assert [values[0]] + values[1..] == values;
    }
  }

  lemma {:induction false} AnyEndingReads(fixed: seq<string>, endings: seq<string>, last: string, values: seq<string>)
    requires |fixed| == |values| + 1 && last in endings
    ensures ReadAny(fixed, endings, Fill(Ending(fixed, last), values, true)) == Some(values)
  {
    EndingReads(fixed, endings[0], last, values);
    FillReads(Ending(fixed, last), values, true);
    if endings[0] != last {
      AnyEndingReads(fixed, endings[1..], last, values);
    }
  }

  predicate Plain(s: string) {
    forall i | 0 <= i < |s| :: ' ' <= s[i] <= '~' && s[i] != '"' && s[i] != '\\'
  }

  lemma PlainIsUnescaped(c: char)
    requires ' ' <= c <= '~' && c != '"' && c != '\\'
    ensures EscapeChar(c, true) == [c]
  {
  }

  lemma {:induction false} PlainTextIsUnescaped(s: string)
    requires Plain(s)
    ensures Escape(s, true) == s
  {
    if s != "" {
      PlainIsUnescaped(s[0]);
      PlainTextIsUnescaped(s[1..]);
      assert s == [s[0]] + s[1..];
    }
  }

  // ---- Lengths ----

  function TotalLength(texts: seq<string>): nat {
    if texts == [] then 0 else |texts[0]| + TotalLength(texts[1..])
  }

  function EscapedLength(values: seq<string>): nat {
    if values == [] then 0 else |Escape(values[0], true)| + EscapedLength(values[1..])
  }

  lemma {:induction false} FillLength(fixed: seq<string>, values: seq<string>)
    requires |fixed| == |values| + 1
    ensures |Fill(fixed, values, true)| == TotalLength(fixed) + EscapedLength(values) + |values|
  {
    if values != [] {
      FillLength(fixed[1..], values[1..]);
    } else {
      assert TotalLength(fixed[1..]) == 0;
    }
  }

  lemma EscapedStep(values: seq<string>, i: nat)
    requires i < |values|
    ensures EscapedLength(values[i..]) == |Escape(values[i], true)| + EscapedLength(values[i + 1..])
  {
    assert values[i..][1..] == values[i + 1..];
  }

  lemma SixEscaped(values: seq<string>)
    requires |values| == 6
    ensures EscapedLength(values)
            == |Escape(values[0], true)| + |Escape(values[1], true)| + |Escape(values[2], true)|
               + |Escape(values[3], true)| + |Escape(values[4], true)| + |Escape(values[5], true)|
  {
    EscapedStep(values, 0);
    EscapedStep(values, 1);
    EscapedStep(values, 2);
    EscapedStep(values, 3);
    EscapedStep(values, 4);
    EscapedStep(values, 5);
    assert values[0..] == values && values[6..] == [];
  }

  function SevenLengths(texts: seq<string>): nat
    requires |texts| == 7
  {
    |texts[0]| + |texts[1]| + |texts[2]| + |texts[3]| + |texts[4]| + |texts[5]| + |texts[6]|
  }

  lemma TotalStep(texts: seq<string>, i: nat)
    requires i < |texts|
    ensures TotalLength(texts[i..]) == |texts[i]| + TotalLength(texts[i + 1..])
  {
    assert texts[i..][1..] == texts[i + 1..];
  }

  lemma SevenTotal(texts: seq<string>)
    requires |texts| == 7
    ensures TotalLength(texts) == SevenLengths(texts)
  {
    TotalStep(texts, 0);
    TotalStep(texts, 1);
    TotalStep(texts, 2);
    TotalStep(texts, 3);
    TotalStep(texts, 4);
    TotalStep(texts, 5);
    TotalStep(texts, 6);
    assert texts[0..] == texts && texts[7..] == [];
  }

  // The length when only the third value may need escapes.
  lemma FilledLength(fixed: seq<string>, values: seq<string>)
    requires |fixed| == 7 && |values| == 6
    requires Plain(values[0]) && Plain(values[1]) && Plain(values[3]) && Plain(values[4]) && Plain(values[5])
    ensures |Fill(fixed, values, true)|
            == SevenLengths(fixed) + 6 + |values[0]| + |values[1]| + |Escape(values[2], true)| + |values[3]|
               + |values[4]| + |values[5]|
  {
    FillLength(fixed, values);
    SevenTotal(fixed);
    SixEscaped(values);
    PlainTextIsUnescaped(values[0]);
    PlainTextIsUnescaped(values[1]);
    PlainTextIsUnescaped(values[3]);
    PlainTextIsUnescaped(values[4]);
    PlainTextIsUnescaped(values[5]);
  }

  // ---- Base64 (section 4 of RFC 4648) ----

  type Byte = x: int | 0 <= x < 256

  function Digit(n: nat): char
    requires n < 64
  {
    if n < 26 then ('A' as int + n) as char
    else if n < 52 then ('a' as int + n - 26) as char
    else if n < 62 then ('0' as int + n - 52) as char
    else if n == 62 then '+'
    else '/'
  }

  function DigitValue(c: char): (r: Option<nat>)
    ensures r.Some? ==> r.value < 64
  {
    if 'A' <= c <= 'Z' then Some(c as int - 'A' as int)
    else if 'a' <= c <= 'z' then Some(c as int - 'a' as int + 26)
    else if '0' <= c <= '9' then Some(c as int - '0' as int + 52)
    else if c == '+' then Some(62)
    else if c == '/' then Some(63)
    else None
  }

  lemma DigitReads(n: nat)
    requires n < 64
    ensures DigitValue(Digit(n)) == Some(n) && ' ' <= Digit(n) <= '~' && Digit(n) !in "\"\\="
  {
  }

  function Encode64(bs: seq<Byte>): string {
    if bs == [] then ""
    else if |bs| == 1 then [Digit(bs[0] / 4), Digit(bs[0] % 4 * 16), '=', '=']
    else if |bs| == 2 then [Digit(bs[0] / 4), Digit(bs[0] % 4 * 16 + bs[1] / 16), Digit(bs[1] % 16 * 4), '=']
    else
      [Digit(bs[0] / 4), Digit(bs[0] % 4 * 16 + bs[1] / 16), Digit(bs[1] % 16 * 4 + bs[2] / 64), Digit(bs[2] % 64)]
      + Encode64(bs[3..])
  }

  // Decode the first four characters; padding may only end the text.
  function DecodeQuad(s: string): Option<seq<Byte>>
    requires |s| >= 4
  {
    match (DigitValue(s[0]), DigitValue(s[1]))
    case (Some(a), Some(b)) =>
      if |s| == 4 && s[2..] == "==" then Some([a * 4 + b / 16])
      else
        (match DigitValue(s[2])
         case None => None
         case Some(c) =>
           if |s| == 4 && s[3] == '=' then Some([a * 4 + b / 16, b % 16 * 16 + c / 4])
           else match DigitValue(s[3])
                case None => None
                case Some(d) => Some([a * 4 + b / 16, b % 16 * 16 + c / 4, c % 4 * 64 + d]))
    case _ => None
  }

  function Decode64(s: string): Option<seq<Byte>> {
    if s == "" then Some([])
    else if |s| < 4 then None
    else
      match DecodeQuad(s)
      case None => None
      case Some(first) =>
        match Decode64(s[4..])
        case None => None
        case Some(rest) => Some(first + rest)
  }

  // What four characters decode to, with at most two paddings at the end.
  lemma QuadFrom(s: string, p: nat, q: nat, x: nat, y: nat)
    requires |s| >= 4 && DigitValue(s[0]) == Some(p) && DigitValue(s[1]) == Some(q)
    ensures DigitValue(s[2]) == Some(x) && DigitValue(s[3]) == Some(y) ==>
              DecodeQuad(s) == Some([p * 4 + q / 16, q % 16 * 16 + x / 4, x % 4 * 64 + y])
    ensures DigitValue(s[2]) == Some(x) && |s| == 4 && s[3] == '=' ==>
              DecodeQuad(s) == Some([p * 4 + q / 16, q % 16 * 16 + x / 4])
    ensures |s| == 4 && s[2] == '=' && s[3] == '=' ==> DecodeQuad(s) == Some([p * 4 + q / 16])
  {
    assert s[2..][0] == s[2] && s[2..][1] == s[3];
  }

  lemma Sextets(a: Byte, b: Byte, c: Byte)
    ensures var p, q, x, y := a / 4, a % 4 * 16 + b / 16, b % 16 * 4 + c / 64, c % 64;
            p * 4 + q / 16 == a && q % 16 * 16 + x / 4 == b && x % 4 * 64 + y == c
  {
    var q, x := a % 4 * 16 + b / 16, b % 16 * 4 + c / 64;
    assert q / 16 == a % 4 && q % 16 == b / 16;
    assert x / 4 == b % 16 && x % 4 == c / 64;
  }

  lemma QuadReads(a: Byte, b: Byte, c: Byte, rest: string)
    ensures DecodeQuad([Digit(a / 4), Digit(a % 4 * 16 + b / 16), Digit(b % 16 * 4 + c / 64), Digit(c % 64)] + rest)
            == Some([a, b, c])
  {
    var p, q, x, y := a / 4, a % 4 * 16 + b / 16, b % 16 * 4 + c / 64, c % 64;
    DigitReads(p);
    DigitReads(q);
    DigitReads(x);
    DigitReads(y);
    QuadFrom([Digit(p), Digit(q), Digit(x), Digit(y)] + rest, p, q, x, y);
    Sextets(a, b, c);
  }

  lemma PairQuadReads(a: Byte, b: Byte)
    ensures DecodeQuad([Digit(a / 4), Digit(a % 4 * 16 + b / 16), Digit(b % 16 * 4), '=']) == Some([a, b])
  {
    var p, q, x := a / 4, a % 4 * 16 + b / 16, b % 16 * 4;
    DigitReads(p);
    DigitReads(q);
    DigitReads(x);
    QuadFrom([Digit(p), Digit(q), Digit(x), '='], p, q, x, 0);
    Sextets(a, b, 0);
  }

  lemma SingleQuadReads(a: Byte)
    ensures DecodeQuad([Digit(a / 4), Digit(a % 4 * 16), '=', '=']) == Some([a])
  {
    DigitReads(a / 4);
    DigitReads(a % 4 * 16);
    QuadFrom([Digit(a / 4), Digit(a % 4 * 16), '=', '='], a / 4, a % 4 * 16, 0, 0);
    Sextets(a, 0, 0);
  }

  lemma Decode64Step(s: string, first: seq<Byte>, rest: seq<Byte>)
    requires |s| >= 4 && DecodeQuad(s) == Some(first) && Decode64(s[4..]) == Some(rest)
    ensures Decode64(s) == Some(first + rest)
  {
  }

  lemma LastQuad(s: string, bs: seq<Byte>)
    requires |s| == 4 && DecodeQuad(s) == Some(bs)
    ensures Decode64(s) == Some(bs)
  {
    assert s[4..] == "";
    Decode64Step(s, bs, []);
    assert bs + [] == bs;
  }

  lemma SingleRoundTrip(a: Byte)
    ensures Decode64(Encode64([a])) == Some([a])
  {
    SingleQuadReads(a);
    LastQuad(Encode64([a]), [a]);
  }

  lemma PairRoundTrip(a: Byte, b: Byte)
    ensures Decode64(Encode64([a, b])) == Some([a, b])
  {
    PairQuadReads(a, b);
    LastQuad(Encode64([a, b]), [a, b]);
  }

  // Decoding undoes encoding, for every length.
  lemma {:induction false} Base64RoundTrip(bs: seq<Byte>)
    ensures Decode64(Encode64(bs)) == Some(bs)
  {
    if |bs| >= 3 {
      Base64RoundTrip(bs[3..]);
      QuadRoundTrip(bs[0], bs[1], bs[2], bs[3..]);
      assert [bs[0], bs[1], bs[2]] + bs[3..] == bs;
    } else if |bs| == 2 {
      PairRoundTrip(bs[0], bs[1]);
      assert bs == [bs[0], bs[1]];
    } else if |bs| == 1 {
      SingleRoundTrip(bs[0]);
      assert bs == [bs[0]];
    }
  }

  lemma QuadRoundTrip(a: Byte, b: Byte, c: Byte, rest: seq<Byte>)
    requires Decode64(Encode64(rest)) == Some(rest)
    ensures Decode64(Encode64([a, b, c] + rest)) == Some([a, b, c] + rest)
  {
    var bs := [a, b, c] + rest;
    assert bs[3..] == rest;
    QuadReads(a, b, c, Encode64(rest));
    assert Encode64(bs)[4..] == Encode64(rest);
    Decode64Step(Encode64(bs), [a, b, c], rest);
  }

  lemma {:induction false} Base64Length(bs: seq<Byte>)
    ensures |Encode64(bs)| == (|bs| + 2) / 3 * 4
  {
    if |bs| >= 3 {
      Base64Length(bs[3..]);
      assert |Encode64(bs)| == 4 + |Encode64(bs[3..])|;
      assert (|bs| + 2) / 3 == (|bs| - 3 + 2) / 3 + 1;
    } else if bs != [] {
      assert |Encode64(bs)| == 4;
    }
  }

  lemma {:induction false} Base64IsPlain(bs: seq<Byte>)
    ensures Plain(Encode64(bs))
  {
    if bs != [] {
      var b, c := if |bs| > 1 then bs[1] else 0, if |bs| > 2 then bs[2] else 0;
      DigitReads(bs[0] / 4);
      DigitReads(bs[0] % 4 * 16 + b / 16);
      DigitReads(b % 16 * 4 + c / 64);
      DigitReads(c % 64);
      if |bs| >= 3 {
        Base64IsPlain(bs[3..]);
        assert Encode64(bs)[4..] == Encode64(bs[3..]);
      }
    }
  }
}

module BackupEnvelope {
  import opened Foundations
  import opened CanonicalText
  import BackupStore

  const MAX_PLAINTEXT_BYTES: nat := BackupStore.MAX_ITEM_BYTES
  const NONCE_BYTES: nat := 12
  const TAG_BYTES: nat := 16

  type Bytes = seq<Byte>

  // What an envelope is authenticated with, besides its key.
  datatype Identity = Identity(backupId: string, hostFingerprint: Option<string>, target: string)

  // AES-GCM: `open` fails with None (an invalid tag).
  datatype Aead = Aead(
    seal: (Bytes, Bytes, Bytes, string) -> Bytes,
    open: (Bytes, Bytes, Bytes, string) -> Option<Bytes>
  )

  // What holds of the cipher itself: it adds a tag, opens what it seals, and opens
  // nothing else.
  ghost predicate Authentic(aead: Aead) {
    && (forall k, n, p, a :: |aead.seal(k, n, p, a)| == |p| + TAG_BYTES)
    && (forall k, n, p, a :: aead.open(k, n, aead.seal(k, n, p, a), a) == Some(p))
    && (forall k, n, c, a :: aead.open(k, n, c, a).Some? ==> aead.seal(k, n, aead.open(k, n, c, a).value, a) == c)
  }

  // One ciphertext, under one key and nonce, for two associated texts: tags are
  // short, so such a pair exists, but nobody should be able to find one.
  ghost predicate Confusion(aead: Aead, key: Bytes, nonce: Bytes, p: Bytes, a: string, q: Bytes, b: string) {
    a != b && aead.seal(key, nonce, p, a) == aead.seal(key, nonce, q, b)
  }

  // The fixed texts of an envelope: what stands around its six string values,
  // the two values that never vary, and the other ends that are read like the
  // last text: a version of true or 1.0 equals 1 in the program.
  datatype Texts = Texts(fixed: seq<string>, algorithm: string, magic: string, otherEnds: seq<string>)

  const STANDARD: Texts := Texts(
    ["{\"algorithm\":\"", ",\"ciphertext\":\"", ",\"key_reference\":\"", ",\"key_scope\":\"", ",\"magic\":\"",
     ",\"nonce\":\"", ",\"version\":1}"],
    "AES-256-GCM", "LLM-MANAGER-BACKUP", [",\"version\":true}", ",\"version\":1.0}"])

  // All that is fixed in an envelope, with the sixteen characters of a nonce.
  const FIXED_TEXT: nat := 145

  predicate LaidOut(t: Texts) {
    && |t.fixed| == 7
    && Plain(t.algorithm) && Plain(t.magic)
    && SevenLengths(t.fixed) + 6 + |t.algorithm| + |t.magic| + 16 == FIXED_TEXT
  }

  // The layout of envelopes; the program uses STANDARD.
  type Layout = t: Texts | LaidOut(t) witness STANDARD

  datatype Suite = Suite(aead: Aead, keys: (string, string) -> Outcome<Bytes>, layout: Layout)

  predicate IsKeyScope(scope: string) {
    scope == "local_secret_service" || scope == "remote_root" || scope == "local_root"
  }

  // `_key`
  function KeyFor(suite: Suite, reference: string, scope: string): Outcome<Bytes> {
    if reference == "" || !IsKeyScope(scope) then Raised(AdapterError("invalid_key_reference"))
    else
      match suite.keys(reference, scope)
      case Raised(e) => Raised(e)
      case Ok(key) => if |key| != 32 then Raised(AdapterError("invalid_key")) else Ok(key)
  }

  const WITH_FINGERPRINT: seq<string> :=
    ["{\"backup_id\":\"", ",\"envelope_version\":1,\"host_fingerprint\":\"", ",\"target\":\"", "}"]
  const WITHOUT_FINGERPRINT: seq<string> :=
    ["{\"backup_id\":\"", ",\"envelope_version\":1,\"host_fingerprint\":null,\"target\":\"", "}"]

  // The canonical JSON of `_aad`
  function AadText(id: Identity): string {
    if id.hostFingerprint.Some?
    then Fill(WITH_FINGERPRINT, [id.backupId, id.hostFingerprint.value, id.target], false)
    else Fill(WITHOUT_FINGERPRINT, [id.backupId, id.target], false)
  }

  // `_aad`
  function Aad(id: Identity): Outcome<string> {
    if id.backupId == "" || id.target == "" then Raised(AdapterError("invalid_aad")) else Ok(AadText(id))
  }

  // The canonical JSON of an envelope
  function Render(layout: Layout, ciphertext: string, reference: string, scope: string, nonce: string): string {
    Fill(layout.fixed, [layout.algorithm, ciphertext, reference, scope, layout.magic, nonce], true)
  }

  // `encrypt`; `nonce` is what the random source returned.
  function Encrypt(
    suite: Suite, plaintext: Bytes, id: Identity, reference: string, scope: string, nonce: Bytes
  ): Outcome<string>
  {
    if |plaintext| > MAX_PLAINTEXT_BYTES then Raised(AdapterError("item_too_large"))
    else
      match KeyFor(suite, reference, scope)
      case Raised(e) => Raised(e)
      case Ok(key) =>
        if |nonce| != NONCE_BYTES then Raised(AdapterError("invalid_nonce"))
        else
          match Aad(id)
          case Raised(e) => Raised(e)
          case Ok(aad) =>
            Ok(Render(suite.layout, Encode64(suite.aead.seal(key, nonce, plaintext, aad)), reference, scope,
                      Encode64(nonce)))
  }

  function Ends(layout: Layout): seq<string> {
    [layout.fixed[6]] + layout.otherEnds
  }

  // The nonce and ciphertext of an acceptable envelope under the expected key;
  // only its canonical text is accepted.
  function Unwrap(layout: Layout, s: string, reference: string, scope: string): Outcome<(Bytes, Bytes)> {
    match ReadAny(layout.fixed, Ends(layout), s)
    case None => Raised(AdapterError("invalid_envelope"))
    case Some(values) => UnwrapValues(layout, values, reference, scope)
  }

  function UnwrapValues(layout: Layout, values: seq<string>, reference: string, scope: string): Outcome<(Bytes, Bytes)>
    requires |values| == 6
  {
    if values[4] != layout.magic || values[0] != layout.algorithm then Raised(AdapterError("unsupported_envelope"))
    else if values[2] != reference || values[3] != scope then Raised(AdapterError("key_scope_mismatch"))
    else
      match (Decode64(values[5]), Decode64(values[1]))
      case (Some(nonce), Some(ciphertext)) =>
        if |nonce| != NONCE_BYTES || !(TAG_BYTES <= |ciphertext| <= MAX_PLAINTEXT_BYTES + TAG_BYTES)
        then Raised(AdapterError("invalid_envelope"))
        else Ok((nonce, ciphertext))
      case _ => Raised(AdapterError("invalid_envelope"))
  }

  // `decrypt`
  function Decrypt(suite: Suite, s: string, id: Identity, reference: string, scope: string): Outcome<Bytes> {
    match Unwrap(suite.layout, s, reference, scope)
    case Raised(e) => Raised(e)
    case Ok((nonce, ciphertext)) =>
      match KeyFor(suite, reference, scope)
      case Raised(e) => Raised(e)
      case Ok(key) =>
        match Aad(id)
        case Raised(e) => Raised(e)
        case Ok(aad) =>
          match suite.aead.open(key, nonce, ciphertext, aad)
          case None => Raised(AdapterError("authentication_failed"))
          case Some(plaintext) => Ok(plaintext)
  }

  // ---- Identities ----

  lemma FillHead(fixed: seq<string>, values: seq<string>, ascii: bool) returns (more: string)
    requires |fixed| == |values| + 1 && values != []
    ensures more == Fill(fixed[1..], values[1..], ascii)
    ensures After(Fill(fixed, values, ascii), fixed[0]) == Some(Escape(values[0], ascii) + "\"" + more)
    ensures ReadString(Escape(values[0], ascii) + "\"" + more) == Some((values[0], more))
  {
    more := Fill(fixed[1..], values[1..], ascii);
    var s := Fill(fixed, values, ascii);
    assert s[..|fixed[0]|] == fixed[0];
    assert s[|fixed[0]|..] == Escape(values[0], ascii) + "\"" + more;
    StringReads(values[0], ascii, more);
  }

  // A missing fingerprint is never written like one that is there.
  lemma FingerprintShows(a: Identity, b: Identity)
    requires a.hostFingerprint.Some? && b.hostFingerprint.None?
    ensures AadText(a) != AadText(b)
  {
    var x := FillHead(WITH_FINGERPRINT, [a.backupId, a.hostFingerprint.value, a.target], false);
    var y := FillHead(WITHOUT_FINGERPRINT, [b.backupId, b.target], false);
    var n := |",\"envelope_version\":1,\"host_fingerprint\":"|;
    assert x[n] == '"' && y[n] == 'n';
  }

  // Different identities are authenticated differently.
  lemma AadInjective(a: Identity, b: Identity)
    requires AadText(a) == AadText(b)
    ensures a == b
  {
    if a.hostFingerprint.Some? && b.hostFingerprint.Some? {
      var x, y := [a.backupId, a.hostFingerprint.value, a.target], [b.backupId, b.hostFingerprint.value, b.target];
      FillReads(WITH_FINGERPRINT, x, false);
      FillReads(WITH_FINGERPRINT, y, false);
      assert x[0] == y[0] && x[1] == y[1] && x[2] == y[2];
    } else if a.hostFingerprint.None? && b.hostFingerprint.None? {
      var x, y := [a.backupId, a.target], [b.backupId, b.target];
      FillReads(WITHOUT_FINGERPRINT, x, false);
      FillReads(WITHOUT_FINGERPRINT, y, false);
      assert x[0] == y[0] && x[1] == y[1];
    } else if a.hostFingerprint.Some? {
      FingerprintShows(a, b);
    } else {
      FingerprintShows(b, a);
    }
  }

  // ---- Round trip ----

  lemma RenderUnwraps(layout: Layout, nonce: Bytes, ciphertext: Bytes, reference: string, scope: string)
    requires |nonce| == NONCE_BYTES && TAG_BYTES <= |ciphertext| <= MAX_PLAINTEXT_BYTES + TAG_BYTES
    ensures Unwrap(layout, Render(layout, Encode64(ciphertext), reference, scope, Encode64(nonce)), reference, scope)
            == Ok((nonce, ciphertext))
  {
    RewrittenUnwraps(layout, nonce, ciphertext, reference, scope, layout.fixed[6]);
    assert Ending(layout.fixed, layout.fixed[6]) == layout.fixed;
  }

  // The canonical JSON of an envelope with its version written as `end` says
  function Rewritten(
    layout: Layout, ciphertext: string, reference: string, scope: string, nonce: string, end: string
  ): string
  {
    Fill(Ending(layout.fixed, end), [layout.algorithm, ciphertext, reference, scope, layout.magic, nonce], true)
  }

  // An envelope whose version is written in another accepted way is read as if
  // it had not been touched.
  lemma RewrittenUnwraps(
    layout: Layout, nonce: Bytes, ciphertext: Bytes, reference: string, scope: string, end: string
  )
    requires |nonce| == NONCE_BYTES && TAG_BYTES <= |ciphertext| <= MAX_PLAINTEXT_BYTES + TAG_BYTES
    requires end in Ends(layout)
    ensures Unwrap(layout, Rewritten(layout, Encode64(ciphertext), reference, scope, Encode64(nonce), end), reference,
                   scope)
            == Ok((nonce, ciphertext))
  {
    var values := [layout.algorithm, Encode64(ciphertext), reference, scope, layout.magic, Encode64(nonce)];
    AnyEndingReads(layout.fixed, Ends(layout), end, values);
    Base64RoundTrip(nonce);
    Base64RoundTrip(ciphertext);
  }

  // Whatever was encrypted decrypts to the same bytes under the same identity
  // and key.
  lemma DecryptInvertsEncrypt(
    suite: Suite, plaintext: Bytes, id: Identity, reference: string, scope: string, nonce: Bytes
  )
    requires Authentic(suite.aead)
    requires Encrypt(suite, plaintext, id, reference, scope, nonce).Ok?
    ensures Decrypt(suite, Encrypt(suite, plaintext, id, reference, scope, nonce).value, id, reference, scope)
            == Ok(plaintext)
  {
    var key, aad := KeyFor(suite, reference, scope).value, Aad(id).value;
    RenderUnwraps(suite.layout, nonce, suite.aead.seal(key, nonce, plaintext, aad), reference, scope);
  }

  // No bytes at all, produced by `encrypt` or not, decrypt under two keys, or
  // under two identities unless the cipher confuses those two.
  lemma DecryptsUnderOneBinding(
    suite: Suite, s: string, id: Identity, reference: string, scope: string, id': Identity, reference': string,
    scope': string
  )
    requires Authentic(suite.aead)
    requires Decrypt(suite, s, id, reference, scope).Ok? && Decrypt(suite, s, id', reference', scope').Ok?
    ensures reference == reference' && scope == scope'
    ensures id == id' || exists nonce ::
              Confusion(suite.aead, KeyFor(suite, reference, scope).value, nonce,
                        Decrypt(suite, s, id, reference, scope).value, AadText(id),
                        Decrypt(suite, s, id', reference', scope').value, AadText(id'))
  {
    var (nonce, ciphertext) := Unwrap(suite.layout, s, reference, scope).value;
    var key := KeyFor(suite, reference, scope).value;
    var p, q := Decrypt(suite, s, id, reference, scope).value, Decrypt(suite, s, id', reference', scope').value;
    assert suite.aead.seal(key, nonce, p, AadText(id)) == ciphertext;
    assert suite.aead.seal(key, nonce, q, AadText(id')) == ciphertext;
    if id != id' {
      if AadText(id) == AadText(id') {
        AadInjective(id, id');
      }
      assert Confusion(suite.aead, key, nonce, p, AadText(id), q, AadText(id'));
    }
  }

  // ---- Size ----

  lemma ScopesArePlain(scope: string)
    requires IsKeyScope(scope)
    ensures Plain(scope)
  {
  }

  // The exact length of an envelope.
  lemma RenderLength(layout: Layout, ciphertext: Bytes, reference: string, scope: string, nonce: Bytes)
    requires |nonce| == NONCE_BYTES && IsKeyScope(scope)
    ensures |Render(layout, Encode64(ciphertext), reference, scope, Encode64(nonce))|
            == FIXED_TEXT + (|ciphertext| + 2) / 3 * 4 + |Escape(reference, true)| + |scope|
  {
    Base64Length(ciphertext);
    Base64Length(nonce);
    Base64IsPlain(ciphertext);
    Base64IsPlain(nonce);
    ScopesArePlain(scope);
    LayoutLength(layout, Encode64(ciphertext), reference, scope, Encode64(nonce));
  }

  lemma LayoutLength(layout: Layout, ciphertext: string, reference: string, scope: string, nonce: string)
    requires Plain(ciphertext) && Plain(scope) && Plain(nonce) && |nonce| == 16
    ensures |Render(layout, ciphertext, reference, scope, nonce)|
            == FIXED_TEXT + |ciphertext| + |Escape(reference, true)| + |scope|
  {
    FilledLength(layout.fixed, [layout.algorithm, ciphertext, reference, scope, layout.magic, nonce]);
  }

  // No envelope is ever refused for its size exactly when the escaped key
  // reference leaves room for the fixed text and the scope; 3900 characters fit
  // every scope.
  lemma EnvelopeFitsIff(suite: Suite, reference: string, scope: string, nonce: Bytes, id: Identity)
    requires Authentic(suite.aead)
    requires KeyFor(suite, reference, scope).Ok? && |nonce| == NONCE_BYTES && Aad(id).Ok?
    ensures (forall p: Bytes | |p| <= MAX_PLAINTEXT_BYTES ::
               |Encrypt(suite, p, id, reference, scope, nonce).value| <= BackupStore.MAX_ENVELOPE_BYTES)
            <==> |Escape(reference, true)| <= 3951 - |scope|
  {
    var e := |Escape(reference, true)| + |scope|;
    if e <= 3951 {
      forall p: Bytes | |p| <= MAX_PLAINTEXT_BYTES
        ensures |Encrypt(suite, p, id, reference, scope, nonce).value| <= BackupStore.MAX_ENVELOPE_BYTES
      {
        EncryptLength(suite, p, id, reference, scope, nonce);
        Room(|p|, e);
      }
    } else {
      var largest := LargestPlaintext();
      EncryptLength(suite, largest, id, reference, scope, nonce);
      Room(|largest|, e);
    }
  }

  lemma Room(n: nat, e: nat)
    requires n <= MAX_PLAINTEXT_BYTES
    ensures e <= 3951 ==> FIXED_TEXT + (n + TAG_BYTES + 2) / 3 * 4 + e <= BackupStore.MAX_ENVELOPE_BYTES
    ensures e > 3951 && n == MAX_PLAINTEXT_BYTES ==>
              FIXED_TEXT + (n + TAG_BYTES + 2) / 3 * 4 + e > BackupStore.MAX_ENVELOPE_BYTES
  {
  }

  lemma LargestPlaintext() returns (p: Bytes)
    ensures |p| == MAX_PLAINTEXT_BYTES
  {
    p := seq(MAX_PLAINTEXT_BYTES, _ => 0);
  }

  lemma EncryptLength(suite: Suite, p: Bytes, id: Identity, reference: string, scope: string, nonce: Bytes)
    requires Authentic(suite.aead)
    requires KeyFor(suite, reference, scope).Ok? && |nonce| == NONCE_BYTES && Aad(id).Ok? && |p| <= MAX_PLAINTEXT_BYTES
    ensures Encrypt(suite, p, id, reference, scope, nonce).Ok?
    ensures |Encrypt(suite, p, id, reference, scope, nonce).value|
            == FIXED_TEXT + (|p| + TAG_BYTES + 2) / 3 * 4 + |Escape(reference, true)| + |scope|
  {
    var key, aad := KeyFor(suite, reference, scope).value, Aad(id).value;
    RenderLength(suite.layout, suite.aead.seal(key, nonce, p, aad), reference, scope, nonce);
  }

  // ---- The cipher of the backup store ----

  predicate IsByteText(s: string) {
    forall i | 0 <= i < |s| :: s[i] as int < 256
  }

  function BytesOf(s: string): Bytes
    requires IsByteText(s)
  {
    seq(|s|, i requires 0 <= i < |s| => s[i] as int)
  }

  function TextOf(bs: Bytes): string {
    seq(|bs|, i requires 0 <= i < |bs| => bs[i] as char)
  }

  function IdentityOf(b: BackupStore.Binding): Identity {
    Identity(b.backupId, b.hostFingerprint, b.target)
  }

  // The store keeps file contents as texts of byte values.
  function EncryptText(suite: Suite, nonce: Bytes, content: string, b: BackupStore.Binding): Outcome<string> {
    if IsByteText(content) then Encrypt(suite, BytesOf(content), IdentityOf(b), b.keyReference, b.keyScope, nonce)
    else Raised(AdapterError("not_bytes"))
  }

  function DecryptText(suite: Suite, stored: string, b: BackupStore.Binding): Outcome<string> {
    match Decrypt(suite, stored, IdentityOf(b), b.keyReference, b.keyScope)
    case Raised(e) => Raised(e)
    case Ok(plaintext) => Ok(TextOf(plaintext))
  }

  // The store runs with this cipher, drawing nonces from anywhere.
  ghost predicate Uses(env: BackupStore.Environment, suite: Suite, nonces: (string, BackupStore.Binding) -> Bytes) {
    && (forall content, b :: env.encrypt(content, b) == EncryptText(suite, nonces(content, b), content, b))
    && (forall stored, b :: env.decrypt(stored, b) == DecryptText(suite, stored, b))
  }

  // With key references of at most 3900 escaped characters, this cipher is as
  // lawful as the store needs: its items read back and are never refused for
  // their size.
  lemma EnvelopeCipherIsLawful(
    env: BackupStore.Environment, suite: Suite, nonces: (string, BackupStore.Binding) -> Bytes
  )
    requires Authentic(suite.aead) && Uses(env, suite, nonces)
    requires forall reference, scope | suite.keys(reference, scope).Ok? :: |Escape(reference, true)| <= 3900
    ensures BackupStore.LawfulCipher(env)
  {
    forall content, b | |content| <= BackupStore.MAX_ITEM_BYTES && env.encrypt(content, b).Ok?
      ensures env.decrypt(env.encrypt(content, b).value, b) == Ok(content)
      ensures |env.encrypt(content, b).value| <= BackupStore.MAX_ENVELOPE_BYTES
    {
      assert env.encrypt(content, b) == EncryptText(suite, nonces(content, b), content, b);
      TextRoundTrip(suite, nonces(content, b), content, b);
    }
  }

  lemma TextRoundTrip(suite: Suite, nonce: Bytes, content: string, b: BackupStore.Binding)
    requires Authentic(suite.aead)
    requires suite.keys(b.keyReference, b.keyScope).Ok? ==> |Escape(b.keyReference, true)| <= 3900
    requires |content| <= BackupStore.MAX_ITEM_BYTES && EncryptText(suite, nonce, content, b).Ok?
    ensures DecryptText(suite, EncryptText(suite, nonce, content, b).value, b) == Ok(content)
    ensures |EncryptText(suite, nonce, content, b).value| <= BackupStore.MAX_ENVELOPE_BYTES
  {
    var bs, id := BytesOf(content), IdentityOf(b);
    DecryptInvertsEncrypt(suite, bs, id, b.keyReference, b.keyScope, nonce);
    EncryptLength(suite, bs, id, b.keyReference, b.keyScope, nonce);
    Room(|bs|, |Escape(b.keyReference, true)| + |b.keyScope|);
    assert TextOf(bs) == content;
  }
}
