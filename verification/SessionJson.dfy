/** The JSON helpers of src/chat/chat_session.cpp and the three payloads built with them. */
module SessionJson {
  import opened Text
  import opened FlatJson
  import Message

  function HexDigit(n: nat): char
    requires n < 16
  {
    if n < 10 then '0' + n as char else 'a' + (n - 10) as char
  }

  /** snprintf("\\u%04x", c) without the backslash, for a control character. */
  function ControlText(c: char): (s: string)
    requires c < ' '
    ensures |s| == 5
  {
    ['u', '0', '0', HexDigit(c as nat / 16), HexDigit(c as nat % 16)]
  }

  /** A control character that jsonEscape writes as a \u escape, which extractStr cannot read. */
  predicate IsControl(c: char) {
    c < ' ' && c != '\n' && c != '\r' && c != '\t'
  }

  function EscapeChar(c: char): (e: string)
    ensures |e| > 0
  {
    if IsControl(c) then "\\" + ControlText(c) else Message.EscapeChar(c)
  }

  function Escape(s: string): string {
    if s == "" then "" else EscapeChar(s[0]) + Escape(s[1..])
  }

  function JsonStr(key: string, value: string): string {
    "\"" + Escape(key) + "\":\"" + Escape(value) + "\""
  }

  /** The value extractStr reads from the text behind an opening quote: escapes are resolved
      and the first unescaped quote, or the end of the text, ends it. */
  function Scan(s: string): string {
    if s == "" then ""
    else if s[0] == '\\' && |s| > 1 then [Message.Unescaped(s[1])] + Scan(s[2..])
    else if s[0] == '"' then ""
    else [s[0]] + Scan(s[1..])
  }

  function ExtractStr(json: string, key: string): string {
    var search := "\"" + key + "\":\"";
    match Find(json, search)
    case None => ""
    case Some(pos) => Scan(json[pos + |search|..])
  }

  // ---- The source's loops ----------------------------------------------------

  lemma EscapeStep(s: string, i: nat, out: string)
    requires i < |s|
    ensures out + EscapeChar(s[i]) + Escape(s[i + 1..]) == out + Escape(s[i..])
  {
    assert s[i..][1..] == s[i + 1..];
    assert Escape(s[i..]) == EscapeChar(s[i]) + Escape(s[i + 1..]);
  }

  method JsonEscape(s: string) returns (out: string)
    ensures out == Escape(s)
  {
    hide Escape;
    out := "";
    assert s[0..] == s;
    for i := 0 to |s|
      invariant out + Escape(s[i..]) == Escape(s)
    {
      var c := s[i];
      EscapeStep(s, i, out);
      match c {
        case '"' => out := out + "\\\"";
        case '\\' => out := out + "\\\\";
        case '\n' => out := out + "\\n";
        case '\r' => out := out + "\\r";
        case '\t' => out := out + "\\t";
        case _ => if c < ' ' { out := out + ("\\" + ControlText(c)); } else { out := out + [c]; }
      }
    }
    NothingLeft(s, out);
  }

  lemma NothingLeft(s: string, out: string)
    ensures out + Escape(s[|s|..]) == out && out + Scan(s[|s|..]) == out
  {
    assert s[|s|..] == "";
  }

  lemma ScanStep(s: string, i: nat, out: string)
    requires i < |s|
    ensures s[i] == '\\' && i + 1 < |s| ==>
      out + [Message.Unescaped(s[i + 1])] + Scan(s[i + 2..]) == out + Scan(s[i..])
    ensures s[i] == '"' ==> out + Scan(s[i..]) == out
    ensures !(s[i] == '\\' && i + 1 < |s|) && s[i] != '"' ==>
      out + [s[i]] + Scan(s[i + 1..]) == out + Scan(s[i..])
  {
    var u := s[i..];
    assert u[1..] == s[i + 1..];
    if s[i] == '\\' && i + 1 < |s| {
      assert u[2..] == s[i + 2..] && u[1] == s[i + 1];
      assert Scan(u) == [Message.Unescaped(s[i + 1])] + Scan(s[i + 2..]);
    } else if s[i] != '"' {
      assert Scan(u) == [s[i]] + Scan(s[i + 1..]);
    }
  }

  method ReadString(json: string, key: string) returns (result: string)
    ensures result == ExtractStr(json, key)
  {
    hide Scan;
    var search := "\"" + key + "\":\"";
    var found := Find(json, search);
    if found.None? { return ""; }
    var pos := found.value + |search|;
    ghost var start := pos;
    result := "";
    assert result + Scan(json[pos..]) == Scan(json[start..]);
    while pos < |json|
      invariant start <= pos <= |json|
      invariant result + Scan(json[pos..]) == Scan(json[start..])
    {
      ScanStep(json, pos, result);
      if json[pos] == '\\' && pos + 1 < |json| {
        pos := pos + 1;
        match json[pos] {
          case '"' => result := result + ['"'];
          case '\\' => result := result + ['\\'];
          case 'n' => result := result + ['\n'];
          case 'r' => result := result + ['\r'];
          case 't' => result := result + ['\t'];
          case _ => result := result + [json[pos]];
        }
      } else if json[pos] == '"' {
        return;
      } else {
        result := result + [json[pos]];
      }
      pos := pos + 1;
    }
    NothingLeft(json, result);
  }

  // ---- Round trip ------------------------------------------------------------

  /** What a value turns into between jsonEscape and extractStr. */
  function Garbled(v: string): string {
    if v == "" then ""
    else (if IsControl(v[0]) then ControlText(v[0]) else [v[0]]) + Garbled(v[1..])
  }

  ghost predicate NoControl(v: string) {
    forall i :: 0 <= i < |v| ==> !IsControl(v[i])
  }

  lemma {:induction false} EscapeGuardsQuotes(s: string)
    ensures QuotesGuarded(Escape(s))
  {
    if s != "" {
      EscapeGuardsQuotes(s[1..]);
      GuardedJoin(EscapeChar(s[0]), Escape(s[1..]));
    }
  }

  /** A key that jsonStr writes as it is. */
  ghost predicate LiteralKey(k: string) { PlainKey(k) && forall i :: 0 <= i < |k| ==> k[i] >= ' ' }

  lemma {:induction false} PlainKeyUnchanged(k: string)
    requires LiteralKey(k)
    ensures Escape(k) == k
  {
    if k != "" {
      PlainKeyUnchanged(k[1..]);
      assert EscapeChar(k[0]) == [k[0]];
    }
  }

  lemma ScanOne(c: char, x: string)
    ensures Scan(EscapeChar(c) + x) == (if IsControl(c) then ControlText(c) else [c]) + Scan(x)
  {
    if IsControl(c) { ScanControl(c, x); } else { ScanPlain(c, x); }
  }

  lemma ScanPlain(c: char, x: string)
    requires !IsControl(c)
    ensures Scan(EscapeChar(c) + x) == [c] + Scan(x)
  {
    var a := EscapeChar(c);
    var t := a + x;
    assert t[|a|..] == x && t[0] == a[0];
    if |a| == 2 { assert t[1] == a[1]; }
  }

  lemma ScanControl(c: char, x: string)
    requires IsControl(c)
    ensures Scan(EscapeChar(c) + x) == ControlText(c) + Scan(x)
  {
    hide Scan;
    var text := ControlText(c);
    var t, u := EscapeChar(c) + x, text[1..] + x;
    assert t[0] == '\\' && t[1] == 'u' && t[2..] == u;
    ScanEscaped(t);
    assert u[4..] == x && u[..4] == text[1..];
    ScanLiterals(u, x, 4);
    assert ['u'] + (text[1..] + Scan(x)) == text + Scan(x);
  }

  lemma ScanEscaped(t: string)
    requires |t| > 1 && t[0] == '\\'
    ensures Scan(t) == [Message.Unescaped(t[1])] + Scan(t[2..])
  {}

  lemma {:induction false} ScanLiterals(t: string, x: string, n: nat)
    requires n <= |t| && t[n..] == x
    requires forall i :: 0 <= i < n ==> t[i] != '"' && t[i] != '\\'
    ensures Scan(t) == t[..n] + Scan(x)
  {
    if n > 0 {
      var u := t[1..];
      assert u[n - 1..] == t[n..];
      ScanLiterals(u, x, n - 1);
      assert t[..n] == [t[0]] + u[..n - 1];
    } else {
      assert t == x && t[..n] + Scan(x) == Scan(x);
    }
  }

  /** Scanning an escaped value stops at its closing quote and yields the garbled value. */
  lemma {:induction false} ScanEscape(v: string, x: string)
    ensures Scan(Escape(v) + "\"" + x) == Garbled(v)
  {
    var t := Escape(v) + "\"" + x;
    if v == "" {
      assert t[0] == '"';
    } else {
      hide Scan;
      var u := Escape(v[1..]) + "\"" + x;
      ScanEscape(v[1..], x);
      assert t == EscapeChar(v[0]) + u;
      ScanOne(v[0], u);
    }
  }

  lemma {:induction false} GarbledLength(v: string)
    ensures |Garbled(v)| >= |v|
    ensures |Garbled(v)| == |v| <==> NoControl(v)
    ensures NoControl(v) ==> Garbled(v) == v
  {
    if v != "" {
      GarbledLength(v[1..]);
      assert NoControl(v) <==> !IsControl(v[0]) && NoControl(v[1..]) by {
        assert forall i :: 0 < i < |v| ==> v[i] == v[1..][i - 1];
      }
    }
  }

  /** extractStr recovers the value of a jsonStr field, up to unreadable control escapes. */
  lemma FieldRead(fs: seq<Field>, i: nat, v: string)
    requires i < |fs| && Searchable(fs, i) && Unimitated(fs, i, "\"") && fs[i] == Str(fs[i].key, Escape(v))
    ensures ExtractStr(Object(fs), fs[i].key) == Garbled(v)
  {
    hide Find, Object, Offset, Rest, Escape, Searchable, Unimitated, Scan, Garbled;
    FieldFound(fs, i);
    var t, o, k := Object(fs), 1 + Offset(fs, i), Seeker(fs[i].key) + "\"";
    var rest := Rest(fs, i);
    assert t == t[..o] + t[o..];
    assert t[o..] == k + (Escape(v) + "\"" + rest);
    assert t[o + |k|..] == Escape(v) + "\"" + rest;
    ScanEscape(v, rest);
    assert "\"" + fs[i].key + "\":\"" == k;
  }

  /** The value is recovered exactly when it has no control byte other than newline, return
      and tab, whatever the other fields contain. */
  lemma FieldRoundTrip(fs: seq<Field>, i: nat, v: string)
    requires i < |fs| && Searchable(fs, i) && Unimitated(fs, i, "\"") && fs[i] == Str(fs[i].key, Escape(v))
    ensures ExtractStr(Object(fs), fs[i].key) == v <==> NoControl(v)
  {
    FieldRead(fs, i, v);
    GarbledLength(v);
  }

  // ---- Objects of jsonStr fields -------------------------------------------

  /** A key and its value. */
  datatype Pair = Pair(key: string, value: string)

  function JsonFields(ps: seq<Pair>): string {
    if ps == [] then ""
    else if |ps| == 1 then JsonStr(ps[0].key, ps[0].value)
    else JsonStr(ps[0].key, ps[0].value) + "," + JsonFields(ps[1..])
  }

  function JsonObject(ps: seq<Pair>): string { "{" + JsonFields(ps) + "}" }

  function Rendered(ps: seq<Pair>): (fs: seq<Field>)
    ensures |fs| == |ps|
  {
    seq(|ps|, i requires 0 <= i < |ps| => Str(Escape(ps[i].key), Escape(ps[i].value)))
  }

  lemma {:induction false} FieldsAreJoined(ps: seq<Pair>)
    requires ps != []
    ensures JsonFields(ps) == Joined(Rendered(ps))
    decreases |ps|
  {
    hide Escape, Render;
    RenderStr(Escape(ps[0].key), Escape(ps[0].value));
    if |ps| > 1 {
      FieldsAreJoined(ps[1..]);
      assert Rendered(ps)[1..] == Rendered(ps[1..]);
    }
  }

  /** An escaped plain key is quote-free, and differs from every literal key but itself. */
  lemma {:induction false} EscapedKey(k: string)
    requires PlainKey(k)
    ensures QuoteFree(Escape(k)) && (LiteralKey(k) ==> Escape(k) == k) && (!LiteralKey(k) ==> '\\' in Escape(k))
    ensures Escape(k) == ":" ==> k == ":"
  {
    if k != "" {
      var c, rest := k[0], k[1..];
      assert k == [c] + rest;
      EscapedKey(rest);
      ControlEscape(c);
      assert Escape(k) == EscapeChar(c) + Escape(rest);
      assert LiteralKey(k) <==> c >= ' ' && LiteralKey(rest);
    }
  }

  lemma ControlEscape(c: char)
    requires c != '"' && c != '\\'
    ensures QuoteFree(EscapeChar(c)) && (c >= ' ' ==> EscapeChar(c) == [c])
    ensures c < ' ' ==> '\\' in EscapeChar(c)
  {}

  /** No control byte is left in an object, so a key with one is never found. */
  ghost predicate Printable(s: string) { forall i :: 0 <= i < |s| ==> s[i] >= ' ' }

  lemma {:induction false} EscapePrintable(s: string)
    ensures Printable(Escape(s))
  {
    if s != "" { EscapePrintable(s[1..]); }
  }

  lemma {:induction false} FieldsPrintable(ps: seq<Pair>)
    ensures Printable(JsonFields(ps))
    decreases |ps|
  {
    hide Escape;
    if ps != [] {
      EscapePrintable(ps[0].key);
      EscapePrintable(ps[0].value);
      FieldsPrintable(ps[1..]);
    }
  }

  lemma ControlKeyMissing(ps: seq<Pair>, key: string)
    requires !Printable(key)
    ensures ExtractStr(JsonObject(ps), key) == ""
  {
    hide JsonFields, Scan;
    FieldsPrintable(ps);
    var t, search := JsonObject(ps), "\"" + key + "\":\"";
    var k :| 0 <= k < |key| && key[k] < ' ';
    assert search[k + 1] == key[k];
    forall j: nat ensures !MatchAt(t, search, j) { MatchPrintable(t, search, j); }
  }

  lemma MatchPrintable(t: string, p: string, j: nat)
    requires Printable(t)
    ensures MatchAt(t, p, j) ==> Printable(p)
  {
    if j + |p| <= |t| {
      var m := t[j..j + |p|];
      assert forall i :: 0 <= i < |m| ==> m[i] == t[j + i];
    }
  }

  /** For any object of jsonStr fields with distinct keys without quotes and backslashes, none of them a single
      colon: extractStr recovers a value exactly when its key has no control byte and the value none but newline,
      return and tab, whatever the other fields are; under a key with a control byte only the empty value. */
  lemma JsonStrRoundTrip(ps: seq<Pair>, i: nat)
    requires i < |ps| && forall p :: 0 <= p < |ps| ==> PlainKey(ps[p].key) && ps[p].key != ":"
    requires forall p, q :: 0 <= p < q < |ps| ==> ps[p].key != ps[q].key
    ensures ExtractStr(JsonObject(ps), ps[i].key) == ps[i].value <==>
      if LiteralKey(ps[i].key) then NoControl(ps[i].value) else ps[i].value == ""
  {
    hide Escape, ExtractStr, JsonFields, Object, Unimitated, QuotesGuarded, QuoteFree;
    var key, fs := ps[i].key, Rendered(ps);
    if LiteralKey(key) {
      RenderedSearchable(ps, i);
      FieldsAreJoined(ps);
      ObjectIs(fs);
      FieldRoundTrip(fs, i, ps[i].value);
    } else {
      ControlKeyMissing(ps, key);
    }
  }

  lemma ObjectIs(fs: seq<Field>)
    requires |fs| > 0
    ensures Object(fs) == "{" + Joined(fs) + "}"
  {}

  lemma RenderedSearchable(ps: seq<Pair>, i: nat)
    requires i < |ps| && forall p :: 0 <= p < |ps| ==> PlainKey(ps[p].key) && ps[p].key != ":"
    requires LiteralKey(ps[i].key) && forall p :: 0 <= p < i ==> ps[p].key != ps[i].key
    ensures var fs := Rendered(ps);
      Searchable(fs, i) && Unimitated(fs, i, "\"") && fs[i] == Str(ps[i].key, Escape(ps[i].value))
  {
    hide Escape, Unimitated, QuotesGuarded, QuoteFree;
    var fs := Rendered(ps);
    forall p | 0 <= p < |ps|
      ensures FieldOk(fs[p]) && fs[p].key != ":"
      ensures (p < i ==> fs[p].key != ps[i].key) && (p == i ==> fs[p].key == ps[i].key) {
      EscapedKey(ps[p].key);
      EscapeGuardsQuotes(ps[p].value);
    }
    NothingImitates(fs, i);
  }

  // ---- Payloads --------------------------------------------------------------

  function HelloPayload(deviceId: string, displayName: string, platform: string, port: nat): string {
    "{" + JsonStr("device_id", deviceId) + "," + JsonStr("display_name", displayName) + "," +
    JsonStr("platform", platform) + "," + "\"tcp_port\":" + ToDecimal(port) + "}"
  }

  function AuthRequestPayload(challenge: string): string {
    "{" + JsonStr("challenge", challenge) + "}"
  }

  function AuthResponsePayload(response: string, deviceId: string): string {
    "{" + JsonStr("response", response) + "," + JsonStr("device_id", deviceId) + "}"
  }

  lemma KeysArePlain()
    ensures LiteralKey("device_id") && LiteralKey("display_name") && LiteralKey("platform")
    ensures LiteralKey("tcp_port") && LiteralKey("challenge") && LiteralKey("response")
    ensures forall k :: LiteralKey(k) ==> PlainKey(k) && QuoteFree(k)
  {
    HelloKeys();
    AuthKeys();
    LiteralIsPlain();
    hide LiteralKey, PlainKey, QuoteFree;
  }

  lemma HelloKeys()
    ensures LiteralKey("device_id") && LiteralKey("display_name") && LiteralKey("platform")
  {}

  lemma AuthKeys()
    ensures LiteralKey("tcp_port") && LiteralKey("challenge") && LiteralKey("response")
  {}

  lemma LiteralIsPlain()
    ensures forall k :: LiteralKey(k) ==> PlainKey(k) && QuoteFree(k)
  {}

  lemma JsonStrIsField(key: string, value: string)
    requires LiteralKey(key)
    ensures JsonStr(key, value) == Render(Str(key, Escape(value)))
  {
    hide Escape;
    PlainKeyUnchanged(key);
  }

  /** HELLO carries all three identity fields, whatever they contain. */
  lemma HelloRead(deviceId: string, displayName: string, platform: string, port: nat)
    ensures var p := HelloPayload(deviceId, displayName, platform, port);
      && ExtractStr(p, "device_id") == Garbled(deviceId)
      && ExtractStr(p, "display_name") == Garbled(displayName)
      && ExtractStr(p, "platform") == Garbled(platform)
  {
    hide *;
    var fs := HelloFields(deviceId, displayName, platform, port);
    HelloIsObject(deviceId, displayName, platform, port);
    FieldRead(fs, 0, deviceId);
    FieldRead(fs, 1, displayName);
    FieldRead(fs, 2, platform);
  }

  function HelloFields(deviceId: string, displayName: string, platform: string, port: nat): (fs: seq<Field>)
    ensures |fs| == 4
    ensures fs[0] == Str("device_id", Escape(deviceId)) && fs[1] == Str("display_name", Escape(displayName))
    ensures fs[2] == Str("platform", Escape(platform))
  {
    [Str("device_id", Escape(deviceId)), Str("display_name", Escape(displayName)),
     Str("platform", Escape(platform)), Num("tcp_port", ToDecimal(port))]
  }

  lemma HelloIsObject(deviceId: string, displayName: string, platform: string, port: nat)
    ensures var fs := HelloFields(deviceId, displayName, platform, port);
      && HelloPayload(deviceId, displayName, platform, port) == Object(fs)
      && forall i: nat :: i < 3 ==> Searchable(fs, i) && Unimitated(fs, i, "\"")
  {
    hide *;
    var a, b, c := Escape(deviceId), Escape(displayName), Escape(platform);
    HelloFieldsAre(deviceId, displayName, platform, port);
    HelloFieldsOk(deviceId, displayName, platform, port);
    KeysArePlain();
    JsonStrIsField("device_id", deviceId);
    JsonStrIsField("display_name", displayName);
    JsonStrIsField("platform", platform);
    RenderNum("tcp_port", ToDecimal(port));
    ObjectOfFour(Str("device_id", a), Str("display_name", b), Str("platform", c), Num("tcp_port", ToDecimal(port)));
    HelloParts(deviceId, displayName, platform, port);
  }

  lemma HelloFieldsAre(deviceId: string, displayName: string, platform: string, port: nat)
    ensures HelloFields(deviceId, displayName, platform, port) ==
      [Str("device_id", Escape(deviceId)), Str("display_name", Escape(displayName)),
       Str("platform", Escape(platform)), Num("tcp_port", ToDecimal(port))]
  {}

  lemma HelloFieldsOk(deviceId: string, displayName: string, platform: string, port: nat)
    ensures var fs := HelloFields(deviceId, displayName, platform, port);
      forall i: nat :: i < 3 ==> Searchable(fs, i) && Unimitated(fs, i, "\"")
  {
    hide Escape, ToDecimal, QuotesGuarded, PlainKey, QuoteFree, LiteralKey, Unimitated;
    Message.DecimalIsQuoteFree(port);
    EscapeGuardsQuotes(deviceId);
    EscapeGuardsQuotes(displayName);
    EscapeGuardsQuotes(platform);
    KeysArePlain();
    var fs := HelloFields(deviceId, displayName, platform, port);
    assert |fs[0].key| == 9 && |fs[1].key| == 12 && fs[2].key[0] == 'p' && fs[3].key[0] == 't';
    assert AllOk(fs) && NoColonKey(fs);
    forall i: nat | i < 3 ensures Unimitated(fs, i, "\"") { NothingImitates(fs, i); }
  }

  lemma HelloParts(deviceId: string, displayName: string, platform: string, port: nat)
    ensures HelloPayload(deviceId, displayName, platform, port) ==
      "{" + (JsonStr("device_id", deviceId) + "," + (JsonStr("display_name", displayName) + "," +
      (JsonStr("platform", platform) + "," + ("\"" + "tcp_port" + "\":" + ToDecimal(port))))) + "}"
  {
    hide JsonStr, ToDecimal;
    assert "\"" + "tcp_port" + "\":" == "\"tcp_port\":";
  }

  lemma ObjectOfFour(a: Field, b: Field, c: Field, d: Field)
    ensures Object([a, b, c, d]) ==
      "{" + (Render(a) + "," + (Render(b) + "," + (Render(c) + "," + Render(d)))) + "}"
  {
    hide Render;
    assert [a, b, c, d][1..] == [b, c, d];
    assert [b, c, d][1..] == [c, d];
    assert [c, d][1..] == [d];
    assert Joined([c, d]) == Render(c) + "," + Render(d);
    assert Joined([b, c, d]) == Render(b) + "," + Joined([c, d]);
  }

  lemma AuthResponseRead(response: string, deviceId: string)
    ensures ExtractStr(AuthResponsePayload(response, deviceId), "response") == Garbled(response)
  {
    hide Escape, QuotesGuarded, PlainKey, QuoteFree, LiteralKey, JsonStr, Render, ExtractStr, Garbled;
    var a, b := Str("response", Escape(response)), Str("device_id", Escape(deviceId));
    EscapeGuardsQuotes(response);
    EscapeGuardsQuotes(deviceId);
    KeysArePlain();
    JsonStrIsField("response", response);
    JsonStrIsField("device_id", deviceId);
    ObjectOfTwo(a, b);
    assert Unimitated([a, b], 0, "\"") && Searchable([a, b], 0);
    FieldRead([a, b], 0, response);
  }

  lemma ObjectOfTwo(a: Field, b: Field)
    ensures Object([a, b]) == "{" + Render(a) + "," + Render(b) + "}"
  {
    hide Render;
    assert [a, b][1..] == [b];
    assert Joined([b]) == Render(b);
    assert Joined([a, b]) == Render(a) + "," + Render(b);
    assert "{" + (Render(a) + "," + Render(b)) + "}" == "{" + Render(a) + "," + Render(b) + "}";
  }

  lemma AuthRequestRead(challenge: string)
    ensures ExtractStr(AuthRequestPayload(challenge), "challenge") == Garbled(challenge)
  {
    hide Escape, QuotesGuarded, PlainKey, QuoteFree, LiteralKey, JsonStr, Render, ExtractStr, Garbled;
    var a := Str("challenge", Escape(challenge));
    EscapeGuardsQuotes(challenge);
    KeysArePlain();
    JsonStrIsField("challenge", challenge);
    FieldRead([a], 0, challenge);
  }

  /** A key that occurs nowhere has the empty value, in any text. */
  lemma AbsentKey(json: string, key: string)
    requires Message.Absent(json, "\"" + key + "\":\"")
    ensures ExtractStr(json, key) == ""
  {
    hide Scan, MatchAt;
  }

  function HexValue(c: char): int {
    if '0' <= c <= '9' then c as int - '0' as int else c as int - 'a' as int + 10
  }

  /** A control character is escaped by its code in four hexadecimal digits. */
  lemma ControlEscapeIsCode(c: char)
    requires IsControl(c)
    ensures var e := EscapeChar(c);
      && |e| == 6 && e[..4] == "\\u00" && e[4] in "01" && e[5] in "0123456789abcdef"
      && HexValue(e[4]) * 16 + HexValue(e[5]) == c as int
  {}

  /** HELLO also carries the listening port, which no session reads. */
  lemma HelloPort(deviceId: string, displayName: string, platform: string, port: Message.int64)
    requires port >= 0
    ensures Message.IntField(HelloPayload(deviceId, displayName, platform, port), "tcp_port") == port
  {
    hide *;
    HelloIsObject(deviceId, displayName, platform, port);
    PortOf(HelloFields(deviceId, displayName, platform, port), deviceId, displayName, platform, port);
  }

  lemma PortOf(fs: seq<Field>, deviceId: string, displayName: string, platform: string, port: Message.int64)
    requires port >= 0 && fs == HelloFields(deviceId, displayName, platform, port)
    ensures Message.IntField(Object(fs), "tcp_port") == port
  {
    HelloPortSearchable(deviceId, displayName, platform, port);
    hide *;
    NumberOf(Object(fs), fs, 3, "tcp_port", port);
  }

  lemma NumberOf(json: string, fs: seq<Field>, i: nat, key: string, n: Message.int64)
    requires i < |fs| && Searchable(fs, i) && Unimitated(fs, i, "") && fs[i] == Num(key, ToDecimal(n))
    requires json == Object(fs)
    ensures Message.IntField(json, key) == n
  {
    assert fs[i].key == key;
    hide *;
    Message.IntFieldRead(fs, i, n);
  }

  lemma HelloPortSearchable(deviceId: string, displayName: string, platform: string, port: nat)
    ensures var fs := HelloFields(deviceId, displayName, platform, port);
      |fs| == 4 && Searchable(fs, 3) && Unimitated(fs, 3, "") && fs[3] == Num("tcp_port", ToDecimal(port))
  {
    hide Escape, ToDecimal, QuotesGuarded, PlainKey, QuoteFree, LiteralKey, Unimitated;
    Message.DecimalIsQuoteFree(port);
    EscapeGuardsQuotes(deviceId);
    EscapeGuardsQuotes(displayName);
    EscapeGuardsQuotes(platform);
    KeysArePlain();
    var fs := HelloFields(deviceId, displayName, platform, port);
    assert fs[0].key[0] == 'd' && fs[1].key[0] == 'd' && fs[2].key[0] == 'p' && fs[3].key[0] == 't';
    assert AllOk(fs) && NoColonFirst(fs);
    NothingImitates(fs, 3);
  }

  /** AUTH_RESPONSE names the answering device too. */
  lemma AuthResponseDevice(response: string, deviceId: string)
    ensures ExtractStr(AuthResponsePayload(response, deviceId), "device_id") == Garbled(deviceId)
  {
    hide Escape, QuotesGuarded, PlainKey, QuoteFree, LiteralKey, JsonStr, Render, ExtractStr, Garbled;
    var a, b := Str("response", Escape(response)), Str("device_id", Escape(deviceId));
    EscapeGuardsQuotes(response);
    EscapeGuardsQuotes(deviceId);
    KeysArePlain();
    JsonStrIsField("response", response);
    JsonStrIsField("device_id", deviceId);
    ObjectOfTwo(a, b);
    var fs := [a, b];
    assert |a.key| == 8 && |b.key| == 9 && AllOk(fs) && NoColonKey(fs) && Searchable(fs, 1);
    NothingImitates(fs, 1);
    FieldRead(fs, 1, deviceId);
  }
}
