/** ChatMessage and its hand-written JSON printer and scanner (src/chat/message.cpp). */
module Message {
  import opened Text
  import opened FlatJson

  const INT64_MIN: int := -0x8000_0000_0000_0000
  const INT64_MAX: int := 0x7fff_ffff_ffff_ffff

  type int64 = x: int | INT64_MIN <= x <= INT64_MAX

  datatype ChatMessage = ChatMessage(
    msgId: string, senderId: string, senderName: string, timestampUtc: int64, text: string)

  // ---- Specification of the escapes ------------------------------------------

  function EscapeChar(c: char): (e: string)
    ensures |e| > 0
  {
    if c == '"' then "\\\""
    else if c == '\\' then "\\\\"
    else if c == '\n' then "\\n"
    else if c == '\r' then "\\r"
    else if c == '\t' then "\\t"
    else [c]
  }

  function Escape(s: string): string {
    if s == "" then "" else EscapeChar(s[0]) + Escape(s[1..])
  }

  /** The character a backslash followed by `c` stands for; an unknown escape is `c` itself. */
  function Unescaped(c: char): char {
    if c == 'n' then '\n' else if c == 'r' then '\r' else if c == 't' then '\t' else c
  }

  function Unescape(s: string): string {
    if s == "" then ""
    else if s[0] == '\\' && |s| > 1 then [Unescaped(s[1])] + Unescape(s[2..])
    else [s[0]] + Unescape(s[1..])
  }

  ghost predicate EndsInBackslash(s: string) {
    s != "" && s[|s| - 1] == '\\'
  }

  lemma {:induction false} EscapeGuardsQuotes(s: string)
    ensures QuotesGuarded(Escape(s))
  {
    if s != "" {
      EscapeGuardsQuotes(s[1..]);
      GuardedJoin(EscapeChar(s[0]), Escape(s[1..]));
    }
  }

  lemma {:induction false} EscapeKeepsBackslashEnd(s: string)
    ensures EndsInBackslash(Escape(s)) <==> EndsInBackslash(s)
    ensures Escape(s) == "" <==> s == ""
  {
    if |s| == 1 {
      assert s[1..] == "";
      assert Escape(s) == EscapeChar(s[0]);
    } else if s != "" {
      EscapeKeepsBackslashEnd(s[1..]);
    }
  }

  /** Escapes are self-delimiting: unescaping gives the value back and continues behind it. */
  lemma {:induction false} UnescapeEscape(v: string, x: string)
    ensures Unescape(Escape(v) + x) == v + Unescape(x)
    decreases |v|
  {
    hide *;
    if v == "" {
      EscapeNothing(x);
    } else {
      var b := Escape(v[1..]) + x;
      UnescapeEscape(v[1..], x);
      EscapeFirst(v, x);
      UnescapeOne(v[0], b);
      FirstBack(v, Unescape(x));
    }
  }

  lemma EscapeNothing(x: string)
    ensures Escape("") + x == x && "" + Unescape(x) == Unescape(x)
  {}

  lemma FirstBack(v: string, x: string)
    requires v != ""
    ensures [v[0]] + (v[1..] + x) == v + x
  {}

  lemma EscapeFirst(v: string, x: string)
    requires v != ""
    ensures Escape(v) + x == EscapeChar(v[0]) + (Escape(v[1..]) + x)
  {
    hide EscapeChar;
  }

  lemma UnescapeOne(c: char, b: string)
    ensures Unescape(EscapeChar(c) + b) == [c] + Unescape(b)
  {
    var a := EscapeChar(c);
    assert (a + b)[|a|..] == b;
    assert (a + b)[0] == a[0] && (|a| > 1 ==> (a + b)[1] == a[1]);
  }

  lemma EscapeStep(s: string, i: nat, out: string)
    requires i < |s|
    ensures out + EscapeChar(s[i]) + Escape(s[i + 1..]) == out + Escape(s[i..])
  {
    assert s[i..][1..] == s[i + 1..];
    assert Escape(s[i..]) == EscapeChar(s[i]) + Escape(s[i + 1..]);
  }

  lemma UnescapeStep(s: string, i: nat, out: string)
    requires i < |s|
    ensures s[i] == '\\' && i + 1 < |s| ==>
      out + [Unescaped(s[i + 1])] + Unescape(s[i + 2..]) == out + Unescape(s[i..])
    ensures !(s[i] == '\\' && i + 1 < |s|) ==>
      out + [s[i]] + Unescape(s[i + 1..]) == out + Unescape(s[i..])
  {
    var u := s[i..];
    assert u[1..] == s[i + 1..];
    if s[i] == '\\' && i + 1 < |s| {
      assert u[2..] == s[i + 2..] && u[1] == s[i + 1];
      assert Unescape(u) == [Unescaped(s[i + 1])] + Unescape(s[i + 2..]);
    } else {
      assert Unescape(u) == [s[i]] + Unescape(s[i + 1..]);
    }
  }

  // ---- Specification of the scanner ------------------------------------------

  /** Where the closing-quote test stops: at the first quote whose left neighbour is not a
      backslash. */
  function ScanEnd(json: string, end: nat): (r: nat)
    requires end <= |json|
    ensures end <= r <= |json|
    decreases |json| - end
  {
    if end == |json| || (json[end] == '"' && (end == 0 || json[end - 1] != '\\')) then end
    else ScanEnd(json, end + 1)
  }

  function StringField(json: string, key: string): string {
    var search := "\"" + key + "\":\"";
    match Find(json, search)
    case None => ""
    case Some(pos) =>
      var start := pos + |search|;
      Unescape(json[start..ScanEnd(json, start)])
  }

  function NumberEnd(json: string, end: nat): (r: nat)
    requires end <= |json|
    ensures end <= r <= |json|
    decreases |json| - end
  {
    if end < |json| && (IsDigit(json[end]) || json[end] == '-') then NumberEnd(json, end + 1) else end
  }

  function IntField(json: string, key: string): int64 {
    var search := "\"" + key + "\":";
    match Find(json, search)
    case None => 0
    case Some(pos) =>
      var start := pos + |search|;
      match ParseSigned(json[start..NumberEnd(json, start)], INT64_MIN, INT64_MAX)
      case None => 0
      case Some(v) => v
  }

  function ToJson(m: ChatMessage): string {
    "{" +
    "\"msgId\":\"" + Escape(m.msgId) + "\"," +
    "\"senderId\":\"" + Escape(m.senderId) + "\"," +
    "\"senderName\":\"" + Escape(m.senderName) + "\"," +
    "\"timestampUtc\":" + ToDecimal(m.timestampUtc) + "," +
    "\"text\":\"" + Escape(m.text) + "\"" +
    "}"
  }

  function FromJson(json: string): Option<ChatMessage> {
    var m := ChatMessage(
      StringField(json, "msgId"), StringField(json, "senderId"), StringField(json, "senderName"),
      IntField(json, "timestampUtc"), StringField(json, "text"));
    if m.msgId == "" || m.senderId == "" then None else Some(m)
  }

  lemma NothingLeft(s: string, out: string)
    ensures out + Escape(s[|s|..]) == out && out + Unescape(s[|s|..]) == out
  {
    assert s[|s|..] == "";
  }

  // ---- The source's loops ----------------------------------------------------

  method EscapeJson(s: string) returns (out: string)
    ensures out == Escape(s)
  {
    hide Escape;
    out := "";
    assert s[0..] == s;
    for i := 0 to |s|
      invariant out + Escape(s[i..]) == Escape(s)
    {
      var c := s[i];
      EscapeStep(s, i, out);
      if c == '"' { out := out + "\\\""; }
      else if c == '\\' { out := out + "\\\\"; }
      else if c == '\n' { out := out + "\\n"; }
      else if c == '\r' { out := out + "\\r"; }
      else if c == '\t' { out := out + "\\t"; }
      else { out := out + [c]; }
    }
    NothingLeft(s, out);
  }

  method UnescapeJson(s: string) returns (out: string)
    ensures out == Unescape(s)
  {
    hide Unescape;
    out := "";
    assert s[0..] == s;
    var i := 0;
    while i < |s|
      invariant 0 <= i <= |s|
      invariant out + Unescape(s[i..]) == Unescape(s)
    {
      UnescapeStep(s, i, out);
      if s[i] == '\\' && i + 1 < |s| {
        i := i + 1;
        if s[i] == '"' { out := out + ['"']; }
        else if s[i] == '\\' { out := out + ['\\']; }
        else if s[i] == 'n' { out := out + ['\n']; }
        else if s[i] == 'r' { out := out + ['\r']; }
        else if s[i] == 't' { out := out + ['\t']; }
        else { out := out + [s[i]]; }
      } else {
        out := out + [s[i]];
      }
      i := i + 1;
    }
    NothingLeft(s, out);
  }

  method ExtractJsonString(json: string, key: string) returns (value: string)
    ensures value == StringField(json, key)
  {
    var search := "\"" + key + "\":\"";
    var found := Find(json, search);
    if found.None? { return ""; }
    var pos := found.value + |search|;
    var end := pos;
    while end < |json|
      invariant pos <= end <= |json|
      invariant ScanEnd(json, end) == ScanEnd(json, pos)
    {
      if json[end] == '"' && (end == 0 || json[end - 1] != '\\') { break; }
      end := end + 1;
    }
    value := UnescapeJson(json[pos..end]);
  }

  method ExtractJsonInt(json: string, key: string) returns (value: int64)
    ensures value == IntField(json, key)
  {
    var search := "\"" + key + "\":";
    var found := Find(json, search);
    if found.None? { return 0; }
    var pos := found.value + |search|;
    var end := pos;
    while end < |json| && (IsDigit(json[end]) || json[end] == '-')
      invariant pos <= end <= |json|
      invariant NumberEnd(json, end) == NumberEnd(json, pos)
    {
      end := end + 1;
    }
    var parsed := ParseSigned(json[pos..end], INT64_MIN, INT64_MAX);
    value := if parsed.None? then 0 else parsed.value;
  }

  method ParseMessage(json: string) returns (r: Option<ChatMessage>)
    ensures r == FromJson(json)
  {
    var msgId := ExtractJsonString(json, "msgId");
    var senderId := ExtractJsonString(json, "senderId");
    var senderName := ExtractJsonString(json, "senderName");
    var text := ExtractJsonString(json, "text");
    var timestamp := ExtractJsonInt(json, "timestampUtc");
    if msgId == "" || senderId == "" { return None; }
    r := Some(ChatMessage(msgId, senderId, senderName, timestamp, text));
  }

  // ---- Round trip ------------------------------------------------------------

  function Fields(m: ChatMessage): seq<Field> {
    [Str("msgId", Escape(m.msgId)), Str("senderId", Escape(m.senderId)),
     Str("senderName", Escape(m.senderName)), Num("timestampUtc", ToDecimal(m.timestampUtc)),
     Str("text", Escape(m.text))]
  }

  function Braced(a: string, b: string, c: string, d: string, e: string): string {
    "{" + (a + "," + (b + "," + (c + "," + (d + "," + e)))) + "}"
  }

  lemma ToJsonIsObject(m: ChatMessage)
    ensures ToJson(m) == Object(Fields(m))
  {
    hide *;
    var a, b, c := Escape(m.msgId), Escape(m.senderId), Escape(m.senderName);
    var d, e := ToDecimal(m.timestampUtc), Escape(m.text);
    FieldsAre(m);
    ObjectOfFive(Str("msgId", a), Str("senderId", b), Str("senderName", c), Num("timestampUtc", d), Str("text", e));
    RenderStr("msgId", a);
    RenderStr("senderId", b);
    RenderStr("senderName", c);
    RenderNum("timestampUtc", d);
    RenderStr("text", e);
    ToJsonParts(m);
  }

  lemma FieldsAre(m: ChatMessage)
    ensures Fields(m) == [Str("msgId", Escape(m.msgId)), Str("senderId", Escape(m.senderId)),
      Str("senderName", Escape(m.senderName)), Num("timestampUtc", ToDecimal(m.timestampUtc)),
      Str("text", Escape(m.text))]
  {}

  /** A string field in the printer's own grouping, and as a unit. */
  lemma StringPart(before: string, k: string, key: string, e: string)
    requires k == "\"" + key + "\":\""
    ensures before + k + e + "\"," == before + (("\"" + key + "\":\"" + e + "\"") + ",")
  {}

  lemma FiveParts(a: string, b: string, c: string, d: string, e: string)
    ensures "{" + (a + ",") + (b + ",") + (c + ",") + (d + ",") + (e + "}") == Braced(a, b, c, d, e)
  {}

  lemma LastPart(before: string, k: string, key: string, e: string)
    requires k == "\"" + key + "\":\""
    ensures before + k + e + "\"" + "}" == before + (("\"" + key + "\":\"" + e + "\"") + "}")
  {}

  lemma NumberPart(before: string, k: string, key: string, n: string)
    requires k == "\"" + key + "\":"
    ensures before + k + n + "," == before + (("\"" + key + "\":" + n) + ",")
  {}

  lemma KeyTexts()
    ensures "\"" + "msgId" + "\":\"" == "\"msgId\":\"" && "\"" + "senderId" + "\":\"" == "\"senderId\":\""
    ensures "\"" + "senderName" + "\":\"" == "\"senderName\":\"" && "\"" + "text" + "\":\"" == "\"text\":\""
    ensures "\"" + "timestampUtc" + "\":" == "\"timestampUtc\":"
  {}

  lemma ToJsonIs(m: ChatMessage, k1: string, k2: string, k3: string, k4: string, k5: string)
    requires k1 == "\"msgId\":\"" && k2 == "\"senderId\":\"" && k3 == "\"senderName\":\""
    requires k4 == "\"timestampUtc\":" && k5 == "\"text\":\""
    ensures ToJson(m) ==
      "{" + k1 + Escape(m.msgId) + "\"," + k2 + Escape(m.senderId) + "\"," + k3 + Escape(m.senderName) + "\"," +
      k4 + ToDecimal(m.timestampUtc) + "," + k5 + Escape(m.text) + "\"" + "}"
  {
    hide Escape, ToDecimal;
  }

  lemma ToJsonParts(m: ChatMessage)
    ensures ToJson(m) == Braced(
      "\"" + "msgId" + "\":\"" + Escape(m.msgId) + "\"", "\"" + "senderId" + "\":\"" + Escape(m.senderId) + "\"",
      "\"" + "senderName" + "\":\"" + Escape(m.senderName) + "\"",
      "\"" + "timestampUtc" + "\":" + ToDecimal(m.timestampUtc), "\"" + "text" + "\":\"" + Escape(m.text) + "\"")
  {
    hide *;
    KeyTexts();
    var k1, k2, k3 := "\"msgId\":\"", "\"senderId\":\"", "\"senderName\":\"";
    var k4, k5 := "\"timestampUtc\":", "\"text\":\"";
    ToJsonIs(m, k1, k2, k3, k4, k5);
    var p1 := "{" + k1 + Escape(m.msgId) + "\",";
    var p2 := p1 + k2 + Escape(m.senderId) + "\",";
    var p3 := p2 + k3 + Escape(m.senderName) + "\",";
    var p4 := p3 + k4 + ToDecimal(m.timestampUtc) + ",";
    StringPart("{", k1, "msgId", Escape(m.msgId));
    StringPart(p1, k2, "senderId", Escape(m.senderId));
    StringPart(p2, k3, "senderName", Escape(m.senderName));
    NumberPart(p3, k4, "timestampUtc", ToDecimal(m.timestampUtc));
    LastPart(p4, k5, "text", Escape(m.text));
    FiveParts("\"" + "msgId" + "\":\"" + Escape(m.msgId) + "\"",
      "\"" + "senderId" + "\":\"" + Escape(m.senderId) + "\"",
      "\"" + "senderName" + "\":\"" + Escape(m.senderName) + "\"",
      "\"" + "timestampUtc" + "\":" + ToDecimal(m.timestampUtc), "\"" + "text" + "\":\"" + Escape(m.text) + "\"");
  }

  lemma ObjectOfFive(a: Field, b: Field, c: Field, d: Field, e: Field)
    ensures Object([a, b, c, d, e]) == Braced(Render(a), Render(b), Render(c), Render(d), Render(e))
  {
    hide Render;
    assert [a, b, c, d, e][1..] == [b, c, d, e];
    assert [b, c, d, e][1..] == [c, d, e];
    assert [c, d, e][1..] == [d, e];
    assert [d, e][1..] == [e];
    assert Joined([e]) == Render(e);
    assert Joined([d, e]) == Render(d) + "," + Render(e);
    assert Joined([c, d, e]) == Render(c) + "," + Joined([d, e]);
    assert Joined([b, c, d, e]) == Render(b) + "," + Joined([c, d, e]);
  }

  lemma KeysArePlain()
    ensures PlainKey("msgId") && PlainKey("senderId") && PlainKey("senderName")
    ensures PlainKey("timestampUtc") && PlainKey("text")
    ensures forall k :: PlainKey(k) ==> QuoteFree(k)
    ensures !(":" <= "msgId") && !(":" <= "senderId") && !(":" <= "senderName")
    ensures !(":" <= "timestampUtc") && !(":" <= "text")
  {
    assert ":"[0] == ':' && "msgId"[0] == 'm' && "senderId"[0] == 's' && "senderName"[0] == 's';
    assert "timestampUtc"[0] == 't' && "text"[0] == 't';
  }

  lemma FieldsAreOk(m: ChatMessage)
    ensures forall i: nat :: i < 5 ==>
      Searchable(Fields(m), i) && Unimitated(Fields(m), i, "") && Unimitated(Fields(m), i, "\"")
  {
    hide Escape, ToDecimal, QuotesGuarded, QuoteFree, PlainKey, Unimitated, NoColonKey;
    EscapeGuardsQuotes(m.msgId);
    EscapeGuardsQuotes(m.senderId);
    EscapeGuardsQuotes(m.senderName);
    EscapeGuardsQuotes(m.text);
    KeysArePlain();
    var fs := Fields(m);
    assert |fs[0].key| == 5 && |fs[1].key| == 8 && |fs[2].key| == 10 && |fs[3].key| == 12 && |fs[4].key| == 4;
    DecimalIsQuoteFree(m.timestampUtc);
    assert AllOk(fs) && NoColonFirst(fs);
    forall i: nat | i < 5 ensures Unimitated(fs, i, "") && Unimitated(fs, i, "\"") { NothingImitates(fs, i); }
  }

  lemma DecimalIsQuoteFree(n: int)
    ensures QuoteFree(ToDecimal(n))
  {}

  /** The scan crosses a guarded text without stopping. */
  lemma {:induction false} ScanCrosses(t: string, from: nat, to: nat)
    requires 0 < from <= to <= |t|
    requires forall i :: from <= i < to && t[i] == '"' ==> t[i - 1] == '\\'
    ensures ScanEnd(t, from) == ScanEnd(t, to)
    decreases |t| - from
  {
    if from < to { ScanCrosses(t, from + 1, to); }
  }

  /** From the opening quote the scan reaches the closing quote of the value; it stops there
      iff the value does not end in a backslash. */
  lemma ScanReaches(t: string, start: nat, q: nat, e: string)
    requires 0 < start <= q < |t| && t[start..q] == e && t[q] == '"' && t[start - 1] == '"'
    requires QuotesGuarded(e)
    ensures if EndsInBackslash(e) then ScanEnd(t, start) > q else ScanEnd(t, start) == q
  {
    assert forall i :: start <= i < q ==> t[i] == e[i - start];
    ScanCrosses(t, start, q);
    if EndsInBackslash(e) {
      assert ScanEnd(t, q) == ScanEnd(t, q + 1);
    }
  }

  /** Reading the field behind an opening quote gives the value exactly when the value does
      not end in a backslash; otherwise the text read is longer. */
  lemma ValueRead(t: string, start: nat, q: nat, v: string)
    requires 0 < start <= q < |t| && t[start..q] == Escape(v) && t[q] == '"' && t[start - 1] == '"'
    ensures Unescape(t[start..ScanEnd(t, start)]) == v <==> !EndsInBackslash(v)
  {
    hide Escape, ScanEnd, EndsInBackslash;
    var e := Escape(v);
    EscapeGuardsQuotes(v);
    EscapeKeepsBackslashEnd(v);
    ScanReaches(t, start, q, e);
    var end := ScanEnd(t, start);
    var more := t[q..end];
    assert t[start..end] == e + more;
    UnescapeEscape(v, more);
    if end == q {
      assert v + Unescape(more) == v;
    } else {
      assert |Unescape(more)| > 0;
    }
  }

  /** Where the value of a field lies, and that the scanner starts there. */
  lemma FieldPlace(fs: seq<Field>, i: nat, v: string) returns (start: nat, q: nat)
    requires i < |fs| && Searchable(fs, i) && Unimitated(fs, i, "\"") && fs[i] == Str(fs[i].key, Escape(v))
    ensures var t := Object(fs);
      && 0 < start <= q < |t| && t[start..q] == Escape(v) && t[q] == '"' && t[start - 1] == '"'
      && StringField(t, fs[i].key) == Unescape(t[start..ScanEnd(t, start)])
  {
    hide Find, Object, Offset, Rest, ScanEnd, Escape, Unescape, Searchable, Unimitated;
    FieldFound(fs, i);
    var t, o, k := Object(fs), 1 + Offset(fs, i), Seeker(fs[i].key) + "\"";
    var pre := t[..o] + k;
    var e, rest := Escape(v), Rest(fs, i);
    assert t == t[..o] + t[o..];
    assert t == pre + e + "\"" + rest;
    start, q := |pre|, |pre| + |e|;
    assert pre[|pre| - 1] == '"';
    MiddleIs(pre, e, rest);
    assert "\"" + fs[i].key + "\":\"" == k;
  }

  lemma MiddleIs(pre: string, e: string, rest: string)
    requires pre != ""
    ensures var t := pre + e + "\"" + rest;
      t[|pre|..|pre| + |e|] == e && t[|pre| + |e|] == '"' && t[|pre| - 1] == pre[|pre| - 1]
  {}

  /** The scanner reads a string field of an object back iff its value does not end in a
      backslash, unless an earlier field imitates its key. */
  lemma StringFieldRead(fs: seq<Field>, i: nat, v: string)
    requires i < |fs| && Searchable(fs, i) && Unimitated(fs, i, "\"") && fs[i] == Str(fs[i].key, Escape(v))
    ensures StringField(Object(fs), fs[i].key) == v <==> !EndsInBackslash(v)
  {
    hide *;
    var start, q := FieldPlace(fs, i, v);
    ValueRead(Object(fs), start, q, v);
  }

  lemma {:induction false} NumberCrosses(t: string, from: nat, to: nat)
    requires from <= to < |t|
    requires forall i :: from <= i < to ==> IsDigit(t[i]) || t[i] == '-'
    requires !IsDigit(t[to]) && t[to] != '-'
    ensures NumberEnd(t, from) == to
    decreases |t| - from
  {
    if from < to { NumberCrosses(t, from + 1, to); }
  }

  lemma NumberRead(t: string, from: nat, to: nat, n: int64)
    requires from <= to < |t| && t[from..to] == ToDecimal(n) && !IsDigit(t[to]) && t[to] != '-'
    ensures ParseSigned(t[from..NumberEnd(t, from)], INT64_MIN, INT64_MAX) == Some(n)
  {
    hide ToDecimal, ReadNumber;
    var d := ToDecimal(n);
    assert forall j :: from <= j < to ==> t[j] == d[j - from];
    NumberCrosses(t, from, to);
    ReadPrinted(n);
  }

  /** Every int64 timestamp survives printing and scanning. */
  lemma IntFieldRead(fs: seq<Field>, i: nat, n: int64)
    requires i < |fs| && Searchable(fs, i) && Unimitated(fs, i, "") && fs[i] == Num(fs[i].key, ToDecimal(n))
    ensures IntField(Object(fs), fs[i].key) == n
  {
    hide Find, Object, Offset, Rest, NumberEnd, ToDecimal, Unimitated, ParseSigned;
    FieldFound(fs, i);
    RestShape(fs, i);
    var t, o, k, d := Object(fs), 1 + Offset(fs, i), Seeker(fs[i].key), ToDecimal(n);
    var pre, rest := t[..o] + k, Rest(fs, i);
    assert t == t[..o] + t[o..];
    assert t == pre + d + rest;
    var from, to := |pre|, |pre| + |d|;
    assert t[from..to] == d && t[to] == rest[0];
    NumberRead(t, from, to, n);
    assert "\"" + fs[i].key + "\":" == k;
  }

  /** Whatever the closing-quote test does, a value that is not empty is not read as empty. */
  lemma ValueNotEmpty(t: string, start: nat, q: nat, v: string)
    requires 0 < start <= q < |t| && t[start..q] == Escape(v) && t[q] == '"' && t[start - 1] == '"'
    ensures Unescape(t[start..ScanEnd(t, start)]) == "" <==> v == ""
  {
    hide Escape, ScanEnd, EndsInBackslash;
    var e := Escape(v);
    EscapeGuardsQuotes(v);
    EscapeKeepsBackslashEnd(v);
    ScanReaches(t, start, q, e);
    var end := ScanEnd(t, start);
    var more := t[q..end];
    assert t[start..end] == e + more;
    UnescapeEscape(v, more);
    NothingEndsInBackslash();
    if v == "" { assert more == "" && v + Unescape(more) == ""; }
  }

  lemma NothingEndsInBackslash()
    ensures !EndsInBackslash("")
  {}

  lemma StringFieldEmpty(fs: seq<Field>, i: nat, v: string)
    requires i < |fs| && Searchable(fs, i) && Unimitated(fs, i, "\"") && fs[i] == Str(fs[i].key, Escape(v))
    ensures StringField(Object(fs), fs[i].key) == "" <==> v == ""
  {
    hide *;
    var start, q := FieldPlace(fs, i, v);
    ValueNotEmpty(Object(fs), start, q, v);
  }

  /** A printed message is refused exactly when one of its ids is empty, whatever its other fields hold. */
  lemma RefusedExactly(m: ChatMessage)
    ensures FromJson(ToJson(m)).None? <==> m.msgId == "" || m.senderId == ""
  {
    hide StringField, IntField, Escape, Object, ToJson, Searchable, Unimitated, ToDecimal;
    var fs := Fields(m);
    ToJsonIsObject(m);
    FieldsAreOk(m);
    StringFieldEmpty(fs, 0, m.msgId);
    StringFieldEmpty(fs, 1, m.senderId);
  }

  /** A message survives the wire text exactly when both ids are non-empty and no string
      field ends in a backslash. */
  lemma MessageRoundTrip(m: ChatMessage)
    ensures FromJson(ToJson(m)) == Some(m) <==>
      && m.msgId != "" && m.senderId != ""
      && !EndsInBackslash(m.msgId) && !EndsInBackslash(m.senderId)
      && !EndsInBackslash(m.senderName) && !EndsInBackslash(m.text)
  {
    hide StringField, IntField, Escape, Object, ToJson, Searchable, Unimitated, EndsInBackslash, ToDecimal;
    var fs := Fields(m);
    ToJsonIsObject(m);
    FieldsAreOk(m);
    StringFieldRead(fs, 0, m.msgId);
    StringFieldRead(fs, 1, m.senderId);
    StringFieldRead(fs, 2, m.senderName);
    IntFieldRead(fs, 3, m.timestampUtc);
    StringFieldRead(fs, 4, m.text);
  }

  // ---- Texts that no printer made --------------------------------------------

  /** `p` occurs nowhere in `t`. */
  ghost predicate Absent(t: string, p: string) { forall j: nat :: !MatchAt(t, p, j) }

  /** Any text: without one of its two ids a message is refused, and any other field that is missing is empty or
      zero. */
  lemma AbsentFields(json: string)
    ensures Absent(json, "\"msgId\":\"") || Absent(json, "\"senderId\":\"") ==> FromJson(json).None?
    ensures FromJson(json).Some? ==>
      var m := FromJson(json).value;
      && m.msgId != "" && m.senderId != ""
      && (Absent(json, "\"senderName\":\"") ==> m.senderName == "")
      && (Absent(json, "\"text\":\"") ==> m.text == "")
      && (Absent(json, "\"timestampUtc\":") ==> m.timestampUtc == 0)
  {
    hide MatchAt, Unescape, ScanEnd, NumberEnd, ParseSigned;
    SearchTexts();
    AbsentString(json, "msgId");
    AbsentString(json, "senderId");
    AbsentString(json, "senderName");
    AbsentString(json, "text");
    AbsentInt(json, "timestampUtc");
    hide StringField, IntField;
  }

  lemma SearchTexts()
    ensures "\"" + "msgId" + "\":\"" == "\"msgId\":\"" && "\"" + "senderId" + "\":\"" == "\"senderId\":\""
    ensures "\"" + "senderName" + "\":\"" == "\"senderName\":\"" && "\"" + "text" + "\":\"" == "\"text\":\""
    ensures "\"" + "timestampUtc" + "\":" == "\"timestampUtc\":"
  {}

  lemma AbsentString(json: string, key: string)
    ensures Absent(json, "\"" + key + "\":\"") ==> StringField(json, key) == ""
  {
    hide MatchAt, Unescape, ScanEnd;
  }

  lemma AbsentInt(json: string, key: string)
    ensures Absent(json, "\"" + key + "\":") ==> IntField(json, key) == 0
  {
    hide MatchAt, NumberEnd, ParseSigned;
  }

  /** A number field that holds no number is zero: what stands behind the key starts with neither a digit nor a
      minus sign. */
  lemma NoNumber(json: string, key: string, j: nat)
    requires Find(json, "\"" + key + "\":") == Some(j) && j + |key| + 3 <= |json|
    requires var at := j + |key| + 3; at == |json| || (!IsDigit(json[at]) && json[at] != '-')
    ensures IntField(json, key) == 0
  {
    var at := j + |key| + 3;
    assert NumberEnd(json, at) == at && json[at..at] == "";
    hide *;
    NoText();
    IntFieldAt(json, key, j);
  }

  /** So is one that does not fit in 64 bits; one that fits is itself. */
  lemma NumberThere(json: string, key: string, j: nat, neg: bool, m: nat)
    requires Find(json, "\"" + key + "\":") == Some(j) && j + |key| + 3 <= |json|
    requires var at := j + |key| + 3; ReadNumber(json[at..NumberEnd(json, at)]) == Some((neg, m))
    ensures var v := if neg then 0 - m else m;
      IntField(json, key) == if -0x8000_0000_0000_0000 <= v <= 0x7fff_ffff_ffff_ffff then v else 0
  {
    var at := j + |key| + 3;
    assert INT64_MIN == -0x8000_0000_0000_0000 && INT64_MAX == 0x7fff_ffff_ffff_ffff;
    hide *;
    NumbersParsed(json[at..NumberEnd(json, at)], INT64_MIN, INT64_MAX);
    IntFieldAt(json, key, j);
  }

  lemma IntFieldAt(json: string, key: string, j: nat)
    requires Find(json, "\"" + key + "\":") == Some(j) && j + |key| + 3 <= |json|
    ensures var at := j + |key| + 3;
      IntField(json, key) == match ParseSigned(json[at..NumberEnd(json, at)], INT64_MIN, INT64_MAX)
        case None => 0 case Some(v) => v
  {
    hide *;
    SearchLength(key);
    IntFieldIs(json, key);
  }

  lemma SearchLength(key: string)
    ensures |"\"" + key + "\":"| == |key| + 3
  {}

  lemma IntFieldIs(json: string, key: string)
    ensures var search := "\"" + key + "\":";
      IntField(json, key) == match Find(json, search)
        case None => 0
        case Some(pos) =>
          var start := pos + |search|;
          match ParseSigned(json[start..NumberEnd(json, start)], INT64_MIN, INT64_MAX) case None => 0 case Some(v) => v
  {
    hide ParseSigned, NumberEnd, MatchAt;
  }

  lemma NoText()
    ensures ParseSigned("", INT64_MIN, INT64_MAX) == None
  {}

  /** The escapes are those of section 7 of RFC 8259. */
  lemma EscapesAreJson(c: char)
    ensures EscapeChar('\n') == "\\n" && EscapeChar('\r') == "\\r" && EscapeChar('\t') == "\\t"
    ensures EscapeChar('"') == "\\\"" && EscapeChar('\\') == "\\\\"
    ensures c !in {'\n', '\r', '\t', '"', '\\'} ==> EscapeChar(c) == [c]
    ensures c !in {'n', 'r', 't'} ==> Unescaped(c) == c
  {}
}
