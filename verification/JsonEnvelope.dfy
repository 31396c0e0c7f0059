/** The hand-written JSON encoder of the response envelope, and the reader that undoes it.
    Bytes are characters; the reader follows section 7 of RFC 8259 for strings. */
module JsonEnvelope {

  import opened Wrappers
  import opened Text
  import opened Numerals

  // ---- the string encoder -------------------------------------------------------------------

  const HEX := "0123456789abcdef"

  function HexPair(c: char): string
    requires c as int < 256
  {
    [HEX[c as int / 16], HEX[c as int % 16]]
  }

  /** What the encoder writes for one byte. */
  function Escape(c: char): string {
    if c == '"' || c == '\\' then ['\\', c]
    else if c == '<' then "\\u003c"
    else if c == '>' then "\\u003e"
    else if c == '&' then "\\u0026"
    else if c as int < 0x20 then "\\u00" + HexPair(c)
    else [c]
  }

  function Escapes(s: string): string {
    if s == "" then "" else Escape(s[0]) + Escapes(s[1..])
  }

  function Encode(s: string): string {
    "\"" + Escapes(s) + "\""
  }

  lemma {:induction false} EscapesSnoc(s: string, c: char)
    ensures Escapes(s + [c]) == Escapes(s) + Escape(c)
  {
    if s == "" {
      assert s + [c] == [c];
    } else {
      assert (s + [c])[1..] == s[1..] + [c];
      EscapesSnoc(s[1..], c);
    }
  }

  lemma EncodeStep(b: string, s: string, i: nat)
    requires i < |s|
    ensures b + "\"" + Escapes(s[..i + 1]) == (b + "\"" + Escapes(s[..i])) + Escape(s[i])
  {
    assert s[..i + 1] == s[..i] + [s[i]];
    EscapesSnoc(s[..i], s[i]);
    hide Escapes, Escape;
  }

  /** The switch of the encoder's loop. */
  method AppendEscaped(b: string, c: char) returns (r: string)
    ensures r == b + Escape(c)
  {
    if c == '"' || c == '\\' {
      r := b + ['\\', c];
    } else if c == '<' {
      r := b + "\\u003c";
    } else if c == '>' {
      r := b + "\\u003e";
    } else if c == '&' {
      r := b + "\\u0026";
    } else if c as int < 0x20 {
      r := b + ("\\u00" + [HEX[c as int / 16], HEX[c as int % 16]]);
    } else {
      r := b + [c];
    }
  }

  method AppendJSONString(b: string, s: string) returns (r: string)
    ensures r == b + Encode(s)
  {
    hide Escapes, Escape, Encode;
    r := b + "\"";
    EncodeEnds(b, s);
    for i := 0 to |s|
      invariant r == b + "\"" + Escapes(s[..i])
    {
      EncodeStep(b, s, i);
      r := AppendEscaped(r, s[i]);
    }
    r := r + "\"";
  }

  lemma EncodeEnds(b: string, s: string)
    ensures b + "\"" == b + "\"" + Escapes(s[..0])
    ensures b + "\"" + Escapes(s[..|s|]) + "\"" == b + Encode(s)
  {
    assert s[..|s|] == s;
    hide Escapes;
    Assoc(b, "\"", Escapes(s));
    Assoc(b, "\"" + Escapes(s), "\"");
    assert Escapes("") == "" by { EscapesNothing(); }
    assert s[..0] == "";
  }

  lemma EscapesNothing()
    ensures Escapes("") == ""
  {
  }

  // ---- reading strings ----------------------------------------------------------------------

  function HexValue(c: char): Option<nat> {
    if '0' <= c <= '9' then Some(c as int - '0' as int)
    else if 'a' <= c <= 'f' then Some(c as int - 'a' as int + 10)
    else if 'A' <= c <= 'F' then Some(c as int - 'A' as int + 10)
    else None
  }

  function HexCode(t: string): Option<nat>
    requires |t| == 4
  {
    match (HexValue(t[0]), HexValue(t[1]), HexValue(t[2]), HexValue(t[3]))
    case (Some(a), Some(b), Some(c), Some(d)) => Some(((a * 16 + b) * 16 + c) * 16 + d)
    case _ => None
  }

  /** The UTF-8 bytes of a code point of the basic plane; surrogates have none. */
  function Utf8(code: nat): Option<string>
    requires code < 0x10000
  {
    if code < 0x80 then Some([code as char])
    else if code < 0x800 then Some([(0xC0 + code / 64) as char, (0x80 + code % 64) as char])
    else if 0xD800 <= code < 0xE000 then None
    else Some([(0xE0 + code / 4096) as char, (0x80 + code / 64 % 64) as char, (0x80 + code % 64) as char])
  }

  function ShortEscape(c: char): Option<char> {
    match c
    case '"' => Some('"')
    case '\\' => Some('\\')
    case '/' => Some('/')
    case 'b' => Some(8 as char)
    case 'f' => Some(12 as char)
    case 'n' => Some(10 as char)
    case 'r' => Some(13 as char)
    case 't' => Some(9 as char)
    case _ => None
  }

  lemma HexCodeBound(t: string)
    requires |t| == 4 && HexCode(t).Some?
    ensures HexCode(t).value < 0x10000
  {}

  /** Reads one character or escape of a string body: its bytes and how much was read. */
  function ReadUnit(t: string): (r: Option<(string, nat)>)
    ensures r.Some? ==> 0 < r.value.1 <= |t|
  {
    if t == "" || t[0] == '"' || t[0] as int < 0x20 then None
    else if t[0] != '\\' then Some(([t[0]], 1))
    else if |t| < 2 then None
    else if t[1] != 'u' then
      match ShortEscape(t[1])
      case Some(c) => Some(([c], 2))
      case None => None
    else if |t| < 6 then None
    else
      match HexCode(t[2..6])
      case None => None
      case Some(code) =>
        HexCodeBound(t[2..6]);
        match Utf8(code)
        case Some(bytes) => Some((bytes, 6))
        case None => None
  }

  /** Reads the body of a string up to its closing quote: the bytes and what follows the quote. */
  function ReadBody(t: string): (r: Option<(string, string)>)
    ensures r.Some? ==> |r.value.1| < |t|
    decreases |t|
  {
    if t != "" && t[0] == '"' then Some(("", t[1..]))
    else
      match ReadUnit(t)
      case None => None
      case Some((bytes, n)) =>
        match ReadBody(t[n..])
        case None => None
        case Some((s, rest)) => Some((bytes + s, rest))
  }

  function ReadString(t: string): (r: Option<(string, string)>)
    ensures r.Some? ==> |r.value.1| < |t|
  {
    if t != "" && t[0] == '"' then ReadBody(t[1..]) else None
  }

  lemma UnitRoundTrip(c: char, rest: string)
    ensures ReadUnit(Escape(c) + rest) == Some(([c], |Escape(c)|))
    ensures Escape(c)[0] != '"'
  {
    var t := Escape(c) + rest;
    if |Escape(c)| == 6 {
      assert t[2..6] == Escape(c)[2..6];
      var n := c as int;
      assert HexValue('0') == Some(0);
      if n < 0x20 {
        assert t[4] == HEX[n / 16] && t[5] == HEX[n % 16];
        HexDigit(n / 16);
        HexDigit(n % 16);
      } else {
        assert HexValue('3') == Some(3) && HexValue('c') == Some(12) && HexValue('e') == Some(14);
        assert HexValue('2') == Some(2) && HexValue('6') == Some(6);
      }
      assert HexCode(t[2..6]) == Some(n);
    }
  }

  lemma HexDigit(n: nat)
    requires n < 16
    ensures HexValue(HEX[n]) == Some(n)
  {}

  lemma {:induction false} BodyRoundTrip(s: string, rest: string)
    ensures ReadBody(Escapes(s) + "\"" + rest) == Some((s, rest))
  {
    if s == "" {
      assert ("\"" + rest)[1..] == rest;
      assert Escapes(s) + "\"" + rest == "\"" + rest;
    } else {
      var e, tail := Escape(s[0]), Escapes(s[1..]) + "\"" + rest;
      var t := Escapes(s) + "\"" + rest;
      assert t == e + tail;
      UnitRoundTrip(s[0], tail);
      BodyRoundTrip(s[1..], rest);
      assert t[|e|..] == tail;
      assert [s[0]] + s[1..] == s;
    }
  }

  /** Whatever the bytes and whatever follows, reading the encoded form gives both back. */
  lemma StringRoundTrip(s: string, rest: string)
    ensures ReadString(Encode(s) + rest) == Some((s, rest))
  {
    BodyRoundTrip(s, rest);
    hide ReadBody, Escapes;
    assert (Encode(s) + rest)[1..] == Escapes(s) + "\"" + rest;
  }

  /** A byte that needs no escape is kept, and the others are spelled in ASCII without capital letters. */
  lemma EscapeForm(c: char)
    ensures c as int >= 0x20 && c !in ['"', '\\', '<', '>', '&'] ==> Escape(c) == [c]
    ensures c as int < 0x20 || c in ['"', '\\', '<', '>', '&'] ==>
              |Escape(c)| > 1 && Escape(c)[0] == '\\' && forall x | x in Escape(c) :: x < 'A' || 'Z' < x
  {
    if c as int < 0x20 {
      HexSmall(c as int / 16);
      HexSmall(c as int % 16);
    }
  }

  lemma HexSmall(n: nat)
    requires n < 16
    ensures '0' <= HEX[n] <= '9' || 'a' <= HEX[n] <= 'f'
  {}

  ghost predicate Harmless(t: string) {
    forall c | c in t :: c as int >= 0x20 && c != '<' && c != '>' && c != '&'
  }

  lemma EscapeHarmless(c: char)
    ensures Harmless(Escape(c))
  {
    if c as int < 0x20 {
      HexHarmless(c as int / 16);
      HexHarmless(c as int % 16);
    }
  }

  lemma HexHarmless(n: nat)
    requires n < 16
    ensures HEX[n] as int >= 0x30
  {}

  /** The encoded form holds no control byte and none of the characters HTML cares about. */
  lemma {:induction false} EncodeHarmless(s: string)
    ensures Harmless(Encode(s)) && Harmless(Escapes(s))
  {
    if s != "" {
      EscapeHarmless(s[0]);
      EncodeHarmless(s[1..]);
    }
  }

  // ---- numbers ------------------------------------------------------------------------------

  predicate NumberChar(c: char) {
    '0' <= c <= '9' || c == '-' || c == '+' || c == '.' || c == 'e' || c == 'E'
  }

  // ---- a reader for whole values ------------------------------------------------------------

  datatype Json =
    | Str(text: string)
    | Num(literal: string)
    | Word(name: string)
    | Arr(items: seq<Json>)
    | Obj(members: seq<(string, Json)>)

  function NumberRun(t: string): (n: nat)
    ensures n <= |t|
  {
    if t == "" || !NumberChar(t[0]) then 0 else 1 + NumberRun(t[1..])
  }

  /** Reads one JSON value without white space between tokens. */
  function ReadValue(t: string): (r: Option<(Json, string)>)
    ensures r.Some? ==> |r.value.1| < |t|
    decreases |t|, 1
  {
    if t == "" then None
    else if t[0] == '"' then
      match ReadString(t)
      case Some((s, rest)) => Some((Str(s), rest))
      case None => None
    else if t[0] == '{' then
      if HasPrefix(t, "{}") then Some((Obj([]), t[2..])) else ReadMembers(t[1..])
    else if t[0] == '[' then
      if HasPrefix(t, "[]") then Some((Arr([]), t[2..])) else ReadItems(t[1..])
    else if HasPrefix(t, "true") then Some((Word("true"), t[4..]))
    else if HasPrefix(t, "false") then Some((Word("false"), t[5..]))
    else if HasPrefix(t, "null") then Some((Word("null"), t[4..]))
    else
      var n := NumberRun(t);
      if n == 0 then None else Some((Num(t[..n]), t[n..]))
  }

  /** Reads the members of an object up to its closing brace. */
  function ReadMembers(t: string): (r: Option<(Json, string)>)
    ensures r.Some? ==> |r.value.1| < |t| && r.value.0.Obj?
    decreases |t|, 0
  {
    match ReadString(t)
    case None => None
    case Some((name, afterName)) =>
      if afterName == "" || afterName[0] != ':' then None
      else
        match ReadValue(afterName[1..])
        case None => None
        case Some((v, rest)) =>
          if rest != "" && rest[0] == '}' then Some((Obj([(name, v)]), rest[1..]))
          else if rest != "" && rest[0] == ',' then
            match ReadMembers(rest[1..])
            case None => None
            case Some((more, end)) => Some((Obj([(name, v)] + more.members), end))
          else None
  }

  /** Reads the items of an array up to its closing bracket. */
  function ReadItems(t: string): (r: Option<(Json, string)>)
    ensures r.Some? ==> |r.value.1| < |t| && r.value.0.Arr?
    decreases |t|, 2
  {
    match ReadValue(t)
    case None => None
    case Some((v, rest)) =>
      if rest != "" && rest[0] == ']' then Some((Arr([v]), rest[1..]))
      else if rest != "" && rest[0] == ',' then
        match ReadItems(rest[1..])
        case None => None
        case Some((more, end)) => Some((Arr([v] + more.items), end))
      else None
  }

  // ---- the envelope -------------------------------------------------------------------------

  /** The data argument after the omitempty test: absent, marshalled to bytes, or refused by the marshaller. */
  datatype Data = Absent | Marshalled(bytes: string) | Refused

  function DataBytes(data: Data): string
    requires !data.Absent?
  {
    if data.Marshalled? then data.bytes else "null"
  }

  /** What follows the message: the data member if there is one, then the two fixed members, then `end`. */
  function FromData(data: Data, requestId: string, timestamp: int, end: string): string {
    var fixed := ",\"requestId\":" + (Encode(requestId) + (",\"timestamp\":" + (Decimal(timestamp) + end)));
    if data.Absent? then fixed else ",\"data\":" + (DataBytes(data) + fixed)
  }

  /** The envelope with `end` in the place of its closing brace. */
  function EnvelopeUpTo(code: int, msg: string, data: Data, requestId: string, timestamp: int, end: string): string {
    "{\"code\":" + (Decimal(code) + (",\"msg\":" + (Encode(msg) + FromData(data, requestId, timestamp, end))))
  }

  function Envelope(code: int, msg: string, data: Data, requestId: string, timestamp: int): string {
    EnvelopeUpTo(code, msg, data, requestId, timestamp, "}")
  }

  lemma Assoc(a: string, b: string, c: string)
    ensures (a + b) + c == a + (b + c)
  {}

  /** Builds the envelope in a buffer, piece by piece. */
  method WriteStandardized(code: int, msg: string, data: Data, requestId: string, timestamp: int) returns (b: string)
    ensures b == Envelope(code, msg, data, requestId, timestamp)
  {
    ghost var fromTime := Decimal(timestamp) + "}";
    ghost var fromId := Encode(requestId) + (",\"timestamp\":" + fromTime);
    ghost var fixed := ",\"requestId\":" + fromId;
    ghost var fromMsg := Encode(msg) + FromData(data, requestId, timestamp, "}");
    ghost var whole := Envelope(code, msg, data, requestId, timestamp);
    assert whole == "{\"code\":" + (Decimal(code) + (",\"msg\":" + fromMsg));
    assert FromData(data, requestId, timestamp, "}") ==
           if data.Absent? then fixed else ",\"data\":" + (DataBytes(data) + fixed);
    hide Decimal, Encode, FromData, Envelope, EnvelopeUpTo;
    b := "{\"code\":";
    Assoc(b, Decimal(code), ",\"msg\":" + fromMsg);
    b := b + Decimal(code);
    Assoc(b, ",\"msg\":", fromMsg);
    b := b + ",\"msg\":";
    Assoc(b, Encode(msg), FromData(data, requestId, timestamp, "}"));
    b := AppendJSONString(b, msg);
    if !data.Absent? {
      Assoc(b, ",\"data\":", DataBytes(data) + fixed);
      b := b + ",\"data\":";
      var dataBytes := "null";
      if data.Marshalled? {
        dataBytes := data.bytes;
      }
      Assoc(b, dataBytes, fixed);
      b := b + dataBytes;
    }
    assert b + fixed == whole;
    Assoc(b, ",\"requestId\":", fromId);
    b := b + ",\"requestId\":";
    Assoc(b, Encode(requestId), ",\"timestamp\":" + fromTime);
    b := AppendJSONString(b, requestId);
    Assoc(b, ",\"timestamp\":", fromTime);
    b := b + ",\"timestamp\":";
    Assoc(b, Decimal(timestamp), "}");
    b := b + Decimal(timestamp);
    b := b + "}";
  }

  // ---- reading the envelope back ------------------------------------------------------------

  /** The bytes d are read as v wherever a value may end. */
  ghost predicate Reads(d: string, v: Json) {
    forall rest | rest != "" && rest[0] in {',', '}', ']'} :: ReadValue(d + rest) == Some((v, rest))
  }

  lemma StringReads(s: string)
    ensures Reads(Encode(s), Str(s))
  {
    forall rest | rest != "" ensures ReadValue(Encode(s) + rest) == Some((Str(s), rest)) {
      StringRoundTrip(s, rest);
      hide ReadString, Escapes;
      assert (Encode(s) + rest)[0] == '"';
    }
  }

  lemma {:induction false} NumberRunIs(t: string, rest: string)
    requires (forall c | c in t :: NumberChar(c)) && (rest == "" || !NumberChar(rest[0]))
    ensures NumberRun(t + rest) == |t|
  {
    if t == "" {
      assert t + rest == rest;
    } else {
      assert t[0] in t && (t + rest)[1..] == t[1..] + rest;
      NumberRunIs(t[1..], rest);
    }
  }

  lemma StartsAlike(t: string, p: string, i: nat)
    requires i < |p|
    ensures HasPrefix(t, p) ==> i < |t| && t[i] == p[i]
  {
    if HasPrefix(t, p) { assert t[..|p|][i] == t[i]; }
  }

  lemma NumberReads(n: int)
    ensures Reads(Decimal(n), Num(Decimal(n)))
  {
    var t := Decimal(n);
    DecimalRead(n);
    assert t[0] in t;
    hide Decimal;
    forall rest | rest != "" && rest[0] in {',', '}', ']'} ensures ReadValue(t + rest) == Some((Num(t), rest)) {
      NumberRunIs(t, rest);
      assert (t + rest)[..|t|] == t && (t + rest)[|t|..] == rest;
      hide NumberRun, ReadString, ReadMembers, ReadItems, HasPrefix;
      assert (t + rest)[0] == t[0];
      StartsAlike(t + rest, "true", 0);
      StartsAlike(t + rest, "false", 0);
      StartsAlike(t + rest, "null", 0);
    }
  }

  lemma NullReads()
    ensures Reads("null", Word("null"))
  {
    forall rest | rest != "" ensures ReadValue("null" + rest) == Some((Word("null"), rest)) {
      var t := "null" + rest;
      assert t[..4] == "null" && t[4..] == rest && t[0] == 'n';
      assert HasPrefix(t, "null");
      hide HasPrefix, ReadString, ReadMembers, ReadItems, NumberRun;
      StartsAlike(t, "true", 0);
      StartsAlike(t, "false", 0);
    }
  }

  /** The text of a member whose value is d, followed by `after`. */
  function MemberText(name: string, d: string, after: string): string {
    Encode(name) + (":" + (d + after))
  }

  lemma MemberRead(name: string, d: string, v: Json, after: string)
    requires Reads(d, v) && after != "" && after[0] in {',', '}', ']'}
    ensures ReadString(MemberText(name, d, after)) == Some((name, ":" + (d + after)))
    ensures ReadValue((":" + (d + after))[1..]) == Some((v, after))
  {
    StringRoundTrip(name, ":" + (d + after));
    hide ReadString, Encode, ReadValue;
    assert (":" + (d + after))[1..] == d + after;
  }

  lemma MemberLast(name: string, d: string, v: Json, rest: string)
    requires Reads(d, v)
    ensures ReadMembers(MemberText(name, d, "}" + rest)) == Some((Obj([(name, v)]), rest))
  {
    var after := "}" + rest;
    assert after[0] == '}' && after[1..] == rest;
    MemberRead(name, d, v, after);
    hide ReadString, ReadValue, MemberText, Reads;
  }

  lemma MemberMore(name: string, d: string, v: Json, more: string, ms: seq<(string, Json)>, end: string)
    requires Reads(d, v) && ReadMembers(more) == Some((Obj(ms), end))
    ensures ReadMembers(MemberText(name, d, "," + more)) == Some((Obj([(name, v)] + ms), end))
  {
    var after := "," + more;
    assert after[0] == ',' && after[1..] == more;
    MemberRead(name, d, v, after);
    hide ReadString, ReadValue, MemberText, Reads;
  }

  predicate Plain(c: char) {
    c as int >= 0x20 && c != '"' && c != '\\' && c != '<' && c != '>' && c != '&'
  }

  lemma {:induction false} PlainEncode(s: string)
    requires forall c | c in s :: Plain(c)
    ensures Escapes(s) == s && Encode(s) == "\"" + s + "\""
  {
    if s != "" {
      assert s[0] in s;
      PlainEncode(s[1..]);
    }
  }

  /** A member as the source spells it: separator, quoted name and colon in one literal. */
  lemma NamedMember(literal: string, before: string, name: string, d: string, after: string)
    requires literal == before + "\"" + name + "\":" && forall c | c in name :: Plain(c)
    ensures literal + (d + after) == before + MemberText(name, d, after)
  {
    hide Encode, Plain;
    PlainEncode(name);
    assert literal == before + (Encode(name) + ":");
    JoinMember(before, Encode(name), ":", d + after);
  }

  lemma JoinMember(a: string, b: string, c: string, d: string)
    ensures (a + (b + c)) + d == a + (b + (c + d))
  {}

  lemma PlainNames()
    ensures forall name, c | name in ["code", "msg", "data", "requestId", "timestamp"] && c in name :: Plain(c)
    ensures "{\"code\":" == "{" + "\"" + "code" + "\":"
    ensures ",\"msg\":" == "," + "\"" + "msg" + "\":"
    ensures ",\"data\":" == "," + "\"" + "data" + "\":"
    ensures ",\"requestId\":" == "," + "\"" + "requestId" + "\":"
    ensures ",\"timestamp\":" == "," + "\"" + "timestamp" + "\":"
  {}

  /** The members the envelope is read back to. */
  function MembersFromData(data: Data, v: Json, requestId: string, timestamp: int): seq<(string, Json)> {
    var fixed := [("requestId", Str(requestId)), ("timestamp", Num(Decimal(timestamp)))];
    if data.Absent? then fixed else [("data", v)] + fixed
  }

  function EnvelopeMembers(code: int, msg: string, data: Data,
                           v: Json, requestId: string, timestamp: int): seq<(string, Json)> {
    [("code", Num(Decimal(code)))] + ([("msg", Str(msg))] + MembersFromData(data, v, requestId, timestamp))
  }

  lemma ReadFixed(requestId: string, timestamp: int, rest: string) returns (more: string)
    ensures FromData(Absent, requestId, timestamp, "}" + rest) == "," + more
    ensures ReadMembers(more) == Some((Obj(MembersFromData(Absent, Word("null"), requestId, timestamp)), rest))
  {
    NumberReads(timestamp);
    StringReads(requestId);
    PlainNames();
    hide ReadMembers, Reads, Encode, Decimal, MemberText, Plain;
    NamedMember(",\"timestamp\":", ",", "timestamp", Decimal(timestamp), "}" + rest);
    var time := MemberText("timestamp", Decimal(timestamp), "}" + rest);
    NamedMember(",\"requestId\":", ",", "requestId", Encode(requestId), "," + time);
    more := MemberText("requestId", Encode(requestId), "," + time);
    MemberLast("timestamp", Decimal(timestamp), Num(Decimal(timestamp)), rest);
    MemberMore("requestId", Encode(requestId), Str(requestId), time, [("timestamp", Num(Decimal(timestamp)))], rest);
    assert [("requestId", Str(requestId))] + [("timestamp", Num(Decimal(timestamp)))] ==
           MembersFromData(Absent, Word("null"), requestId, timestamp);
  }

  lemma ReadFromData(data: Data, v: Json, requestId: string, timestamp: int, rest: string) returns (more: string)
    requires !data.Absent? ==> Reads(DataBytes(data), v)
    ensures FromData(data, requestId, timestamp, "}" + rest) == "," + more
    ensures ReadMembers(more) == Some((Obj(MembersFromData(data, v, requestId, timestamp)), rest))
  {
    var fixed := ReadFixed(requestId, timestamp, rest);
    if data.Absent? {
      more := fixed;
    } else {
      PlainNames();
      hide ReadMembers, Reads, Encode, Decimal, MemberText, Plain;
      NamedMember(",\"data\":", ",", "data", DataBytes(data), "," + fixed);
      more := MemberText("data", DataBytes(data), "," + fixed);
      MemberMore("data", DataBytes(data), v, fixed, MembersFromData(Absent, v, requestId, timestamp), rest);
    }
  }

  lemma ReadHead(code: int, msg: string, more: string, ms: seq<(string, Json)>, rest: string) returns (body: string)
    requires ReadMembers(more) == Some((Obj(ms), rest))
    ensures "{\"code\":" + (Decimal(code) + (",\"msg\":" + (Encode(msg) + ("," + more)))) == "{" + body
    ensures body != "" && body[0] == '"'
    ensures ReadMembers(body) == Some((Obj([("code", Num(Decimal(code)))] + ([("msg", Str(msg))] + ms)), rest))
  {
    NumberReads(code);
    StringReads(msg);
    PlainNames();
    hide ReadMembers, Reads, Decimal, Plain, Escapes;
    NamedMember(",\"msg\":", ",", "msg", Encode(msg), "," + more);
    var fromMsg := MemberText("msg", Encode(msg), "," + more);
    NamedMember("{\"code\":", "{", "code", Decimal(code), "," + fromMsg);
    body := MemberText("code", Decimal(code), "," + fromMsg);
    assert body[0] == '"';
    hide MemberText, Encode;
    MemberMore("msg", Encode(msg), Str(msg), more, ms, rest);
    MemberMore("code", Decimal(code), Num(Decimal(code)), fromMsg, [("msg", Str(msg))] + ms, rest);
  }

  lemma ReadObject(body: string)
    requires body != "" && body[0] == '"'
    ensures ReadValue("{" + body) == ReadMembers(body)
  {
    var t := "{" + body;
    assert t[1..] == body && t[1] == '"';
    StartsAlike(t, "{}", 1);
    hide ReadMembers, HasPrefix;
  }

  /** The whole envelope, followed by anything, is read as one object with its members in order: the same
      code, message, request id and time, and the data value its bytes stand for. */
  lemma EnvelopeRoundTrip(code: int, msg: string, data: Data, v: Json, requestId: string, timestamp: int, rest: string)
    requires !data.Absent? ==> Reads(DataBytes(data), v)
    ensures ReadValue(Envelope(code, msg, data, requestId, timestamp) + rest) ==
            Some((Obj(EnvelopeMembers(code, msg, data, v, requestId, timestamp)), rest))
    ensures IntValue(Decimal(code)) == code && IntValue(Decimal(timestamp)) == timestamp
  {
    DecimalRead(code);
    DecimalRead(timestamp);
    EndMoves(code, msg, data, requestId, timestamp, rest);
    var more := ReadFromData(data, v, requestId, timestamp, rest);
    var body := ReadHead(code, msg, more, MembersFromData(data, v, requestId, timestamp), rest);
    hide ReadMembers, ReadValue, Encode, Decimal, FromData, Envelope, IntValue;
    ReadObject(body);
  }

  /** Data the marshaller refuses is read back as null. */
  lemma RefusedReadsNull(code: int, msg: string, requestId: string, timestamp: int, rest: string)
    ensures ReadValue(Envelope(code, msg, Refused, requestId, timestamp) + rest) ==
            Some((Obj(EnvelopeMembers(code, msg, Refused, Word("null"), requestId, timestamp)), rest))
  {
    NullReads();
    hide ReadMembers, ReadValue, Encode, Decimal, FromData, Envelope, EnvelopeMembers, Reads;
    EnvelopeRoundTrip(code, msg, Refused, Word("null"), requestId, timestamp, rest);
  }

  /** What follows the envelope can be moved behind its closing brace. */
  lemma EndMoves(code: int, msg: string, data: Data, requestId: string, timestamp: int, rest: string)
    ensures Envelope(code, msg, data, requestId, timestamp) + rest ==
            EnvelopeUpTo(code, msg, data, requestId, timestamp, "}" + rest)
  {
    FromDataEnd(data, requestId, timestamp, rest);
    var fromData := FromData(data, requestId, timestamp, "}");
    hide Encode, Decimal, FromData;
    Assoc(Encode(msg), fromData, rest);
    Assoc(",\"msg\":", Encode(msg) + fromData, rest);
    Assoc(Decimal(code), ",\"msg\":" + (Encode(msg) + fromData), rest);
    Assoc("{\"code\":", Decimal(code) + (",\"msg\":" + (Encode(msg) + fromData)), rest);
  }

  lemma FromDataEnd(data: Data, requestId: string, timestamp: int, rest: string)
    ensures FromData(data, requestId, timestamp, "}") + rest == FromData(data, requestId, timestamp, "}" + rest)
  {
    hide Encode, Decimal, DataBytes;
    var time := Decimal(timestamp) + "}";
    Assoc(Decimal(timestamp), "}", rest);
    Assoc(",\"timestamp\":", time, rest);
    Assoc(Encode(requestId), ",\"timestamp\":" + time, rest);
    var id := Encode(requestId) + (",\"timestamp\":" + time);
    Assoc(",\"requestId\":", id, rest);
    if !data.Absent? {
      Assoc(DataBytes(data), ",\"requestId\":" + id, rest);
      Assoc(",\"data\":", DataBytes(data) + (",\"requestId\":" + id), rest);
    }
  }

  /** Two envelopes with the same bytes say the same. */
  lemma EnvelopeInjective(code: int, msg: string, requestId: string, timestamp: int,
                          code': int, msg': string, requestId': string, timestamp': int)
    requires Envelope(code, msg, Absent, requestId, timestamp) == Envelope(code', msg', Absent, requestId', timestamp')
    ensures code == code' && msg == msg' && requestId == requestId' && timestamp == timestamp'
  {
    hide Envelope, ReadValue, Decimal, IntValue;
    EnvelopeRoundTrip(code, msg, Absent, Word("null"), requestId, timestamp, "");
    EnvelopeRoundTrip(code', msg', Absent, Word("null"), requestId', timestamp', "");
    var a := EnvelopeMembers(code, msg, Absent, Word("null"), requestId, timestamp);
    var b := EnvelopeMembers(code', msg', Absent, Word("null"), requestId', timestamp');
    assert a[0] == b[0] && a[1] == b[1] && a[2] == b[2] && a[3] == b[3];
  }
}
