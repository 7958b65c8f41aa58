/** Challenge and response over a pre-shared key (src/security/authentication.cpp). */
module Authentication {
  import opened Text

  /** Both session payload builders of this file put their first value in unescaped. */
  function BuildJson(key1: string, val1: string, key2: string := "", val2: string := "",
                     key3: string := "", val3: string := ""): string
  {
    "{\"" + key1 + "\":\"" + val1 + "\"" + Part(key2, val2) + Part(key3, val3) + "}"
  }

  function Part(key: string, val: string): string {
    if key == "" then "" else ",\"" + key + "\":\"" + val + "\""
  }

  /** What extractStr collects from the text behind an opening quote. A backslash only makes the
      next character an ordinary one. */
  function Scan(s: string): string {
    if s == "" || s[0] == '"' then ""
    else if s[0] == '\\' && |s| > 1 then [s[1]] + Scan(s[2..])
    else [s[0]] + Scan(s[1..])
  }

  function ExtractStr(json: string, key: string): string {
    var search := "\"" + key + "\":\"";
    match Find(json, search)
    case None => ""
    case Some(pos) => Scan(json[pos + |search|..])
  }

  lemma ScanStep(s: string, i: nat, out: string)
    requires i < |s|
    ensures s[i] == '"' ==> out + Scan(s[i..]) == out
    ensures s[i] == '\\' && i + 1 < |s| ==> out + [s[i + 1]] + Scan(s[i + 2..]) == out + Scan(s[i..])
    ensures s[i] != '"' && !(s[i] == '\\' && i + 1 < |s|) ==> out + [s[i]] + Scan(s[i + 1..]) == out + Scan(s[i..])
  {
    var u := s[i..];
    assert u[1..] == s[i + 1..];
    if s[i] == '\\' && i + 1 < |s| {
      assert u[2..] == s[i + 2..] && u[1] == s[i + 1];
      assert Scan(u) == [s[i + 1]] + Scan(s[i + 2..]);
    } else if s[i] != '"' {
      assert Scan(u) == [s[i]] + Scan(s[i + 1..]);
    }
  }

  lemma NothingLeft(s: string, out: string)
    ensures out + Scan(s[|s|..]) == out
  {
    assert s[|s|..] == "";
  }

  method ReadString(json: string, key: string) returns (result: string)
    ensures result == ExtractStr(json, key)
  {
    hide Scan;
    var search := "\"" + key + "\":\"";
    var found := Find(json, search);
    if found.None? { return ""; }
    var pos := found.value + |search|;
    result := "";
    ghost var start := pos;
    assert "" + Scan(json[start..]) == Scan(json[start..]);
    while pos < |json| && json[pos] != '"'
      invariant pos <= |json|
      invariant result + Scan(json[pos..]) == Scan(json[start..])
    {
      ScanStep(json, pos, result);
      if json[pos] == '\\' && pos + 1 < |json| { pos := pos + 1; }
      result := result + [json[pos]];
      pos := pos + 1;
    }
    if pos < |json| { ScanStep(json, pos, result); } else { NothingLeft(json, result); }
  }

  // ---- Which values the unescaped object carries -----------------------------

  /** A value without quotes and backslashes, such as every base64 text. */
  predicate Raw(v: string) { '"' !in v && '\\' !in v }

  lemma RawStep(v: string, n: nat)
    requires 0 < n <= |v| && Raw(v[..n])
    ensures v[0] != '"' && v[0] != '\\' && Raw(v[1..][..n - 1])
    ensures v[..n] == [v[0]] + v[1..][..n - 1] && v[1..][n - 1..] == v[n..]
  {
    assert v[..n] == [v[0]] + v[1..][..n - 1];
  }

  lemma {:induction false} ScanRaw(v: string, x: string, n: nat)
    requires n <= |v| && Raw(v[..n])
    ensures Scan(v + x) == v[..n] + Scan(v[n..] + x)
    decreases n
  {
    hide Raw;
    if n == 0 {
      assert v[0..] == v && v[..0] == "";
    } else {
      RawStep(v, n);
      ScanRaw(v[1..], x, n - 1);
      assert (v + x)[0] == v[0] && (v + x)[1..] == v[1..] + x;
      assert Scan(v + x) == [v[0]] + Scan(v[1..] + x);
    }
  }

  /** Once a backslash is consumed the scan is ahead of what it has produced, and could only catch up over an
      endless run of backslashes. */
  lemma {:induction false} NeverCatchesUp(v: string, x: string, from: nat, k: nat, p: nat)
    requires from <= k < p <= |v| && x != "" && x[0] == '"'
    requires forall j :: from <= j < p ==> v[j] == '\\'
    ensures Scan((v + x)[p..]) != v[k..]
    decreases |v| - k
  {
    var t := v + x;
    if Scan(t[p..]) == v[k..] {
      var u := t[p..];
      assert v[k..][0] == '\\' && v[k..][1..] == v[k + 1..];
      assert u[0] == t[p] && u != "";
      assert t[|v|] == '"' && |t| > |v|;
      if p < |v| {
        assert t[p] == v[p] && t[p + 1] == u[1];
        assert u[1] == '\\' && p + 1 < |v| && v[p] == '\\' && t[p + 1] == v[p + 1];
        if p + 2 <= |v| {
          assert u[2..] == t[p + 2..];
          NeverCatchesUp(v, x, from, k + 1, p + 2);
        }
      }
    }
  }

  function FirstSpecial(v: string): (n: nat)
    ensures n <= |v| && Raw(v[..n])
    ensures n < |v| ==> v[n] == '"' || v[n] == '\\'
    ensures n < |v| <==> !Raw(v)
  {
    if v == "" || v[0] == '"' || v[0] == '\\' then 0
    else
      var n := 1 + FirstSpecial(v[1..]);
      assert v[..n] == [v[0]] + v[1..][..n - 1];
      assert v == [v[0]] + v[1..];
      n
  }

  /** A value that starts with a quote or a backslash does not come back. */
  lemma SpecialIsLost(v: string, x: string)
    requires x != "" && x[0] == '"' && v != "" && (v[0] == '"' || v[0] == '\\')
    ensures Scan(v + x) != v
  {
    var u := v + x;
    assert u[0] == v[0];
    if v[0] == '\\' && Scan(u) == v {
      assert Scan(u) == [u[1]] + Scan(u[2..]);
      assert u[1] == '\\';
      assert |v| > 1 && Scan(u[2..]) == v[1..];
      NeverCatchesUp(v, x, 0, 1, 2);
    }
  }

  /** The value comes back exactly when it has no quote and no backslash. */
  lemma ScanExact(v: string, x: string)
    requires x != "" && x[0] == '"'
    ensures Scan(v + x) == v <==> Raw(v)
  {
    hide Raw, Scan;
    var n := FirstSpecial(v);
    ScanRaw(v, x, n);
    if n == |v| {
      assert v[n..] + x == x && v[..n] == v && v + "" == v;
      ScanNothing(x);
    } else {
      assert v == v[..n] + v[n..];
      SpecialIsLost(v[n..], x);
    }
  }

  lemma ScanNothing(x: string)
    requires x != "" && x[0] == '"'
    ensures Scan(x) == ""
  {}

  lemma FirstFieldAt(key: string, v: string, rest: string)
    ensures var t := "{\"" + key + "\":\"" + v + rest;
      var p := "\"" + key + "\":\"";
      Find(t, p) == Some(1) && t[1 + |p|..] == v + rest
  {
    var p := "\"" + key + "\":\"";
    var t := "{\"" + key + "\":\"" + v + rest;
    assert t == "{" + p + (v + rest);
    assert t[1..1 + |p|] == p;
    assert MatchAt(t, p, 1);
    assert t[0..0 + |p|][0] == '{';
    assert p[0] == '"';
    assert !MatchAt(t, p, 0);
  }

  /** The first field of a built object is read back exactly when its value has no quote and no backslash,
      whatever the other fields hold. */
  lemma FirstFieldRead(key1: string, val1: string, key2: string, val2: string, key3: string, val3: string)
    ensures ExtractStr(BuildJson(key1, val1, key2, val2, key3, val3), key1) == val1 <==> Raw(val1)
  {
    hide Scan, Part, Raw, MatchAt;
    var rest := "\"" + Part(key2, val2) + Part(key3, val3) + "}";
    FirstFieldAt(key1, val1, rest);
    assert BuildJson(key1, val1, key2, val2, key3, val3) == "{\"" + key1 + "\":\"" + val1 + rest;
    ScanExact(val1, rest);
  }

  // ---- Agreement -------------------------------------------------------------

  predicate IsHex(s: string) {
    s != "" && forall i :: 0 <= i < |s| ==> '0' <= s[i] <= '9' || 'a' <= s[i] <= 'f'
  }

  type Hex = s: string | IsHex(s) witness "0"

  /** Crypto::hmacSha256, of which only the form of the result is known. */
  type Hmac = (string, string) -> Hex

  function Expected(hmac: Hmac, psk: string, challenge: string): string {
    if psk == "" then "" else hmac(psk, challenge)
  }

  function VerifyResponse(hmac: Hmac, psk: string, challenge: string, payload: string): bool {
    if psk == "" then true
    else
      var response := ExtractStr(payload, "response");
      response != "" && response == Expected(hmac, psk, challenge)
  }

  function BuildResponse(hmac: Hmac, psk: string, deviceId: string, payload: string): string {
    var challenge := ExtractStr(payload, "challenge");
    if challenge == "" then ""
    else BuildJson("response", Expected(hmac, psk, challenge), "device_id", deviceId)
  }

  lemma HexIsRaw(s: string)
    requires s == "" || IsHex(s)
    ensures Raw(s)
  {}

  /** One exchange: the verifier sends its challenge, the responder answers, the verifier decides. It accepts
      exactly when it has no key, or both have one and the two HMAC values are equal. */
  lemma ChallengeAgreement(hmac: Hmac, verifier: string, responder: string, deviceId: string, challenge: string)
    requires challenge != "" && Raw(challenge)
    ensures
      VerifyResponse(hmac, verifier, challenge,
        BuildResponse(hmac, responder, deviceId, BuildJson("challenge", challenge)))
      <==> verifier == "" || (responder != "" && hmac(verifier, challenge) == hmac(responder, challenge))
  {
    hide ExtractStr, BuildJson, Raw;
    FirstFieldRead("challenge", challenge, "", "", "", "");
    var r := Expected(hmac, responder, challenge);
    HexIsRaw(r);
    FirstFieldRead("response", r, "device_id", deviceId, "", "");
  }

  /** Two holders of one key always recognise each other. */
  lemma SameKeyAccepted(hmac: Hmac, psk: string, deviceId: string, challenge: string)
    requires challenge != "" && Raw(challenge)
    ensures VerifyResponse(hmac, psk, challenge, BuildResponse(hmac, psk, deviceId, BuildJson("challenge", challenge)))
  {
    hide *;
    ChallengeAgreement(hmac, psk, psk, deviceId, challenge);
  }

  /** Any payload: with a key set, one without a response field is refused; a request without a challenge field is
      answered by nothing. */
  lemma AbsentFields(hmac: Hmac, psk: string, deviceId: string, challenge: string, payload: string)
    ensures psk != "" && (forall j: nat :: !MatchAt(payload, "\"response\":\"", j)) ==>
      !VerifyResponse(hmac, psk, challenge, payload)
    ensures (forall j: nat :: !MatchAt(payload, "\"challenge\":\"", j)) ==>
      BuildResponse(hmac, psk, deviceId, payload) == ""
  {
    hide Scan, MatchAt, BuildJson;
    assert "\"" + "response" + "\":\"" == "\"response\":\"";
    assert "\"" + "challenge" + "\":\"" == "\"challenge\":\"";
  }

  /** The whole text of an answer to a challenge: the response, then the device. */
  lemma AnswerText(hmac: Hmac, psk: string, deviceId: string, challenge: string)
    requires challenge != "" && Raw(challenge) && psk != ""
    ensures BuildResponse(hmac, psk, deviceId, BuildJson("challenge", challenge)) ==
      "{\"" + "response" + "\":\"" + hmac(psk, challenge) + "\"" +
      (",\"" + "device_id" + "\":\"" + deviceId + "\"") + "}"
  {
    FirstFieldRead("challenge", challenge, "", "", "", "");
    BuildTwo("response", hmac(psk, challenge), "device_id", deviceId);
    hide ExtractStr, BuildJson, Raw;
  }

  lemma BuildTwo(key1: string, val1: string, key2: string, val2: string)
    requires key2 != ""
    ensures BuildJson(key1, val1, key2, val2) ==
      "{\"" + key1 + "\":\"" + val1 + "\"" + (",\"" + key2 + "\":\"" + val2 + "\"") + "}"
  {
    var all := "{\"" + key1 + "\":\"" + val1 + "\"" + Part(key2, val2);
    assert all + Part("", "") == all;
  }
}
