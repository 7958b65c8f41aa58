/** Finding a field of a flat JSON object by raw substring search, as every scanner of the
    program does: exactly when an earlier field can imitate the key that is searched for. */
module FlatJson {
  import opened Text

  /** A rendered field: a quoted text (already escaped) or a bare number. */
  datatype Field = Str(key: string, body: string) | Num(key: string, body: string)

  /** A key that stands for itself in the search pattern. */
  ghost predicate PlainKey(k: string) { '"' !in k && '\\' !in k }

  /** Every quote of an escaped text directly follows a backslash. */
  ghost predicate QuotesGuarded(e: string) {
    forall i :: 0 <= i < |e| && e[i] == '"' ==> i > 0 && e[i - 1] == '\\'
  }

  lemma GuardedJoin(a: string, b: string)
    requires QuotesGuarded(a) && QuotesGuarded(b)
    ensures QuotesGuarded(a + b)
  {
    forall i | 0 <= i < |a + b| && (a + b)[i] == '"' ensures i > 0 && (a + b)[i - 1] == '\\' {
      if i >= |a| { assert b[i - |a|] == '"'; }
    }
  }

  ghost predicate QuoteFree(e: string) { '"' !in e }

  ghost predicate FieldOk(f: Field) {
    QuoteFree(f.key) && (if f.Str? then QuotesGuarded(f.body) else QuoteFree(f.body))
  }

  ghost predicate AllOk(fs: seq<Field>) { forall i :: 0 <= i < |fs| ==> FieldOk(fs[i]) }

  /** No earlier field has the key of field `i`. */
  ghost predicate NewKey(fs: seq<Field>, i: nat)
    requires i < |fs|
  {
    forall p :: 0 <= p < i ==> fs[p].key != fs[i].key
  }

  /** What a field needs to be searched for; the fields after it may have any keys. */
  ghost predicate Searchable(fs: seq<Field>, i: nat)
    requires i < |fs|
  {
    AllOk(fs) && NewKey(fs, i) && PlainKey(fs[i].key)
  }

  /** What both search patterns start with. */
  function Seeker(key: string): string { "\"" + key + "\":" }

  function Render(f: Field): string {
    Seeker(f.key) + if f.Str? then "\"" + f.body + "\"" else f.body
  }

  function Joined(fs: seq<Field>): string
    requires |fs| > 0
  {
    if |fs| == 1 then Render(fs[0]) else Render(fs[0]) + "," + Joined(fs[1..])
  }

  function Object(fs: seq<Field>): string
    requires |fs| > 0
  {
    "{" + Joined(fs) + "}"
  }

  /** What may follow a field: nothing but the closing brace, or the next key. */
  ghost predicate Follows(rest: string, next: Option<string>) {
    match next
    case None => rest == "}"
    case Some(g) => QuoteFree(g) && ",\"" + g + "\"" <= rest
  }

  /** The first quote at or after `from`, or the end of the text. */
  function FirstQuote(t: string, from: nat): (q: nat)
    requires from <= |t|
    ensures from <= q <= |t| && (q < |t| ==> t[q] == '"')
    ensures forall i :: from <= i < q ==> t[i] != '"'
    decreases |t| - from
  {
    if from == |t| || t[from] == '"' then from else FirstQuote(t, from + 1)
  }

  lemma SliceOfSlice(t: string, j: nat, n: nat, a: nat, b: nat)
    requires j + n <= |t| && a <= b <= n
    ensures t[j..j + n][a..b] == t[j + a..j + b]
  {
    var x, y := t[j..j + n][a..b], t[j + a..j + b];
    assert forall i :: 0 <= i < |x| ==> x[i] == t[j..j + n][a + i] == y[i];
  }

  /** A quote, the key, the next quote, a colon, and `x`. */
  ghost predicate Opens(t: string, key: string, x: string, j: nat) {
    j < |t| && t[j] == '"' &&
    var q := FirstQuote(t, j + 1);
    t[j + 1..q] == key && q < |t| && ":" + x <= t[q + 1..]
  }

  /** A search for a key stops exactly where two neighbouring quotes enclose it. */
  lemma MatchIs(t: string, key: string, x: string, j: nat)
    requires QuoteFree(key)
    ensures MatchAt(t, Seeker(key) + x, j) <==> Opens(t, key, x, j)
  {
    if MatchAt(t, Seeker(key) + x, j) { MatchOpens(t, key, x, j); }
    if Opens(t, key, x, j) { OpensMatch(t, key, x, j); }
  }

  lemma MatchOpens(t: string, key: string, x: string, j: nat)
    requires QuoteFree(key) && MatchAt(t, Seeker(key) + x, j)
    ensures Opens(t, key, x, j)
  {
    var p, e := Seeker(key) + x, j + |key| + 1;
    var m := t[j..j + |p|];
    assert m == p;
    assert p[0] == '"' && p[1..|key| + 1] == key && p[|key| + 1] == '"';
    assert m[0] == t[j] && m[|key| + 1] == t[e];
    SliceOfSlice(t, j, |p|, 1, |key| + 1);
    assert forall i :: j < i < e ==> t[i] == t[j + 1..e][i - j - 1];
    assert FirstQuote(t, j + 1) == e;
    assert p[|key| + 2..|p|] == ":" + x;
    SliceOfSlice(t, j, |p|, |key| + 2, |p|);
    assert t[e + 1..][..|x| + 1] == t[e + 1..e + 2 + |x|];
  }

  lemma OpensMatch(t: string, key: string, x: string, j: nat)
    requires Opens(t, key, x, j)
    ensures MatchAt(t, Seeker(key) + x, j)
  {
    var q := FirstQuote(t, j + 1);
    assert t[q + 1..][..|x| + 1] == t[q + 1..q + 2 + |x|] == ":" + x;
    assert t[j..q + 2 + |x|] == [t[j]] + t[j + 1..q] + [t[q]] + t[q + 1..q + 2 + |x|];
    assert Seeker(key) + x == "\"" + key + "\"" + (":" + x);
  }

  /** The characters of a rendered field. */
  lemma RenderChars(f: Field, rest: string)
    ensures var t := Render(f) + rest; var n := |f.key|; var b := if f.Str? then n + 4 else n + 3;
      && |Render(f)| == b + |f.body| + (if f.Str? then 1 else 0)
      && t[0] == '"' && t[n + 1] == '"' && t[n + 2] == ':' && t[1..n + 1] == f.key
      && (forall i :: 0 < i <= n ==> t[i] == f.key[i - 1])
      && (f.Str? ==> t[n + 3] == '"' && t[b + |f.body|] == '"')
      && (forall i :: b <= i < b + |f.body| ==> t[i] == f.body[i - b])
      && (forall i :: |Render(f)| <= i < |t| ==> t[i] == rest[i - |Render(f)|])
  {
    assert Seeker(f.key)[1..|f.key| + 1] == f.key;
  }

  /** The text between the last quote of a field and the next key. */
  function Gap(f: Field): string { if f.Str? then "," else ":" + f.body + "," }

  /** How a field can imitate another key: by its value, between the closing quote of its own key and the opening
      quote of the value, or together with the next key, between two fields. `x` is what the search wants behind
      the colon: nothing, or the opening quote of a value. */
  ghost predicate Imitates(f: Field, next: Option<string>, key: string, x: string) {
    || (f.Str? && key == ":" && ":" + x <= f.body + "\"")
    || (next.Some? && key == Gap(f) && ":" + x <= next.value + "\"")
  }

  function LastQuote(f: Field): nat { if f.Str? then |Render(f)| - 1 else |f.key| + 1 }

  lemma LastQuoteIs(f: Field, rest: string, next: Option<string>)
    requires FieldOk(f) && Follows(rest, next)
    ensures var t := Render(f) + rest; var l := LastQuote(f);
      && l < |Render(f)| && t[l] == '"'
      && var q := FirstQuote(t, l + 1);
         if next.None? then q == |t|
         else q == |Render(f)| + 1 && q < |t| && t[l + 1..q] == Gap(f) && next.value + "\"" <= t[q + 1..]
  {
    RenderChars(f, rest);
    if next.Some? { GapIs(f, rest); }
    hide Render, Gap;
    var t, l, r := Render(f) + rest, LastQuote(f), |Render(f)|;
    if next.None? {
      assert forall i :: l < i < |t| ==> t[i] != '"';
    } else {
      assert t[r] == ',' && t[r + 1] == rest[1] == '"';
      assert forall i :: l < i <= r ==> t[i] != '"';
      assert FirstQuote(t, l + 1) == r + 1;
      assert t[r + 2..] == rest[2..];
      assert rest[2..][..|next.value| + 1] == rest[2..|next.value| + 3] == next.value + "\"";
    }
  }

  lemma GapIs(f: Field, rest: string)
    requires rest != "" && rest[0] == ','
    ensures (Render(f) + rest)[LastQuote(f) + 1..|Render(f)| + 1] == Gap(f)
  {
    var t, r := Render(f) + rest, |Render(f)|;
    RenderChars(f, rest);
    if f.Str? {
      assert t[r..r + 1] == ",";
    } else {
      var g := t[|f.key| + 2..r + 1];
      assert forall i :: 0 <= i < |g| ==> g[i] == Gap(f)[i];
    }
  }

  /** The last quote of a field opens a match exactly when the field and the next key imitate the searched one. */
  lemma LastQuoteOpens(f: Field, rest: string, next: Option<string>, key: string, x: string)
    requires FieldOk(f) && Follows(rest, next) && |x| <= 1
    ensures Opens(Render(f) + rest, key, x, LastQuote(f)) <==>
      next.Some? && key == Gap(f) && ":" + x <= next.value + "\""
  {
    hide Render, LastQuote, Follows, Gap;
    LastQuoteIs(f, rest, next);
    if next.Some? {
      var t := Render(f) + rest;
      var q := FirstQuote(t, LastQuote(f) + 1);
      PrefixShort(next.value + "\"", t[q + 1..], ":" + x, next.value);
    }
  }

  /** A text that must start with a colon is decided within `v` and its closing quote. */
  lemma PrefixShort(a: string, t: string, p: string, v: string)
    requires a == v + "\"" && a <= t && 0 < |p| <= 2 && p[0] == ':'
    ensures p <= t <==> p <= a
  {
    if p <= t {
      assert t[0] == ':' && a[0] == t[0];
      assert |a| >= 2;
      assert forall i :: 0 <= i < |p| ==> a[i] == t[i] == p[i];
    }
  }

  /** The closing quote of the key of a text field opens a match exactly when the value imitates the key. */
  lemma KeyEndOpens(f: Field, rest: string, key: string, x: string)
    requires f.Str? && FieldOk(f) && |x| <= 1
    ensures Opens(Render(f) + rest, key, x, |f.key| + 1) <==> key == ":" && ":" + x <= f.body + "\""
  {
    var t, n := Render(f) + rest, |f.key|;
    RenderChars(f, rest);
    assert FirstQuote(t, n + 2) == n + 3 && t[n + 2..n + 3] == ":";
    ValueBehind(f, rest);
    hide Render;
    PrefixShort(f.body + "\"", t[n + 4..], ":" + x, f.body);
  }

  lemma ValueBehind(f: Field, rest: string)
    requires f.Str?
    ensures f.body + "\"" <= (Render(f) + rest)[|f.key| + 4..]
  {
    var t, n := Render(f) + rest, |f.key|;
    assert t[n + 4..] == f.body + "\"" + rest;
  }

  /** Nothing else in a field opens a match with another plain key. */
  lemma OtherQuotes(f: Field, rest: string, next: Option<string>, key: string, x: string, j: nat)
    requires FieldOk(f) && PlainKey(key) && key != f.key && Follows(rest, next)
    requires j < |Render(f)| && j != LastQuote(f) && (f.Str? ==> j != |f.key| + 1)
    ensures !Opens(Render(f) + rest, key, x, j)
  {
    var t, n := Render(f) + rest, |f.key|;
    RenderChars(f, rest);
    if j == 0 {
      assert FirstQuote(t, 1) == n + 1;
    } else if j > n + 2 && f.Str? {
      InsideBody(f, rest, next, key, x, j);
    }
  }

  lemma InsideBody(f: Field, rest: string, next: Option<string>, key: string, x: string, j: nat)
    requires f.Str? && FieldOk(f) && PlainKey(key) && Follows(rest, next)
    requires |f.key| + 2 < j < |Render(f)| - 1
    ensures !Opens(Render(f) + rest, key, x, j)
  {
    hide Render;
    var t, b := Render(f) + rest, |f.key| + 4;
    RenderChars(f, rest);
    var q, d := FirstQuote(t, j + 1), b + |f.body|;
    assert d + 1 == |Render(f)| && t[d + 1] == rest[0] != ':';
    assert q <= d;
    if q < d {
      assert f.body[q - b] == '"' && t[q - 1] == '\\';
      assert j + 1 < q ==> t[j + 1..q][q - j - 2] == '\\';
    } else {
      assert t[q + 1..][0] == t[d + 1];
    }
  }

  /** A rendered field matches the search for another plain key exactly when it imitates that key; with distinct
      keys and none of them starting with a colon it never does. */
  lemma FieldHidesKey(f: Field, rest: string, next: Option<string>, key: string, x: string)
    requires FieldOk(f) && PlainKey(key) && key != f.key && Follows(rest, next) && |x| <= 1
    ensures (exists j: nat :: j < |Render(f)| && MatchAt(Render(f) + rest, Seeker(key) + x, j)) <==>
      Imitates(f, next, key, x)
  {
    hide Render, Follows, Gap, FieldOk, Opens, Seeker, MatchAt, LastQuote;
    var t, p := Render(f) + rest, Seeker(key) + x;
    forall j: nat ensures MatchAt(t, p, j) <==> Opens(t, key, x, j) { MatchIs(t, key, x, j); }
    LastQuoteIs(f, rest, next);
    LastQuoteOpens(f, rest, next, key, x);
    if f.Str? { KeyEndOpens(f, rest, key, x); KeyEndInside(f); }
    forall j: nat | j < |Render(f)| && j != LastQuote(f) && (f.Str? ==> j != |f.key| + 1)
      ensures !Opens(t, key, x, j) {
      OtherQuotes(f, rest, next, key, x, j);
    }
    if Imitates(f, next, key, x) {
      var j := if f.Str? && key == ":" && ":" + x <= f.body + "\"" then |f.key| + 1 else LastQuote(f);
      assert MatchAt(t, p, j);
    }
  }

  lemma KeyEndInside(f: Field)
    requires f.Str?
    ensures |f.key| + 1 < |Render(f)|
  {}

  /** Where field `i` starts inside Joined(fs). */
  function Offset(fs: seq<Field>, i: nat): (o: nat)
    requires i < |fs|
  {
    if i == 0 then 0 else |Render(fs[0])| + 1 + Offset(fs[1..], i - 1)
  }

  /** What follows field `i` up to the end of the object. */
  function Rest(fs: seq<Field>, i: nat): string
    requires i < |fs|
  {
    if i + 1 == |fs| then "}" else "," + Joined(fs[i + 1..]) + "}"
  }

  function NextKey(fs: seq<Field>, i: nat): Option<string>
    requires i < |fs|
  {
    if i + 1 < |fs| then Some(fs[i + 1].key) else None
  }

  lemma RestShape(fs: seq<Field>, i: nat)
    requires AllOk(fs) && i < |fs|
    ensures Follows(Rest(fs, i), NextKey(fs, i))
  {
    if i + 1 < |fs| {
      var g := fs[i + 1];
      JoinedStarts(fs[i + 1..]);
      assert FieldOk(g) && fs[i + 1..][0] == g;
      assert ",\"" + g.key + "\"" == "," + ("\"" + g.key + "\"");
    }
  }

  lemma JoinedStarts(fs: seq<Field>)
    requires |fs| > 0
    ensures "\"" + fs[0].key + "\"" <= Joined(fs)
  {
    RenderStarts(fs[0]);
    hide Render;
  }

  lemma RenderStarts(f: Field)
    ensures "\"" + f.key + "\"" <= Render(f)
  {
    assert Seeker(f.key) == "\"" + f.key + "\"" + ":";
  }

  /** No field before field `i` imitates its key. */
  ghost predicate Unimitated(fs: seq<Field>, i: nat, x: string)
    requires i < |fs|
  {
    forall p :: 0 <= p < i ==> !Imitates(fs[p], NextKey(fs, p), fs[i].key, x)
  }

  /** Nothing matches before `o`. */
  ghost predicate Clear(t: string, p: string, o: nat) { forall j: nat :: j < o ==> !MatchAt(t, p, j) }

  lemma ClearSplit(pre: string, u: string, p: string, o: nat)
    ensures Clear(pre + u, p, |pre| + o) <==> Clear(pre + u, p, |pre|) && Clear(u, p, o)
  {
    hide MatchAt;
    forall j: nat ensures MatchAt(pre + u, p, |pre| + j) <==> MatchAt(u, p, j) { MatchShift(pre, u, p, j); }
    if Clear(pre + u, p, |pre|) && Clear(u, p, o) {
      forall j: nat | j < |pre| + o ensures !MatchAt(pre + u, p, j) {
        if j >= |pre| { assert !MatchAt(u, p, j - |pre|); }
      }
    }
  }

  lemma StartsElsewhere(t: string, key: string, x: string, j: nat)
    requires j < |t| && t[j] != '"'
    ensures !MatchAt(t, Seeker(key) + x, j)
  {
    Differs(t, Seeker(key) + x, j, 0);
  }

  lemma FieldAndComma(f: Field, u: string, next: string, key: string, x: string)
    requires FieldOk(f) && PlainKey(key) && key != f.key && |x| <= 1
    requires Follows("," + u, Some(next))
    ensures Clear(Render(f) + "," + u, Seeker(key) + x, |Render(f)| + 1) <==> !Imitates(f, Some(next), key, x)
  {
    hide Imitates, Render, Follows, FieldOk, Seeker, MatchAt;
    var r := Render(f);
    var t := r + "," + u;
    assert t == r + ("," + u);
    FieldHidesKey(f, "," + u, Some(next), key, x);
    StartsElsewhere(t, key, x, |r|);
  }

  lemma {:induction false} JoinedPosition(fs: seq<Field>, i: nat)
    requires i < |fs|
    ensures var t := Joined(fs) + "}"; var o := Offset(fs, i);
      o <= |t| && t[o..] == Render(fs[i]) + Rest(fs, i)
    decreases i
  {
    hide *;
    if i == 0 {
      FirstAndRest(fs);
    } else {
      JoinedPosition(fs[1..], i - 1);
      JoinedStep(fs, i);
      SliceShift(Render(fs[0]) + ",", Joined(fs[1..]) + "}", Offset(fs[1..], i - 1));
      assert fs[1..][i - 1] == fs[i];
    }
  }

  lemma {:induction false} JoinedSearch(fs: seq<Field>, i: nat, x: string)
    requires i < |fs| && Searchable(fs, i) && |x| <= 1
    ensures Clear(Joined(fs) + "}", Seeker(fs[i].key) + x, Offset(fs, i)) <==> Unimitated(fs, i, x)
    decreases i
  {
    SearchableMeans(fs, i);
    hide *;
    if i == 0 {
      FirstAndRest(fs);
      NothingBefore(Joined(fs) + "}", Seeker(fs[0].key) + x);
      NoneBeforeFirst(fs, x);
    } else {
      var tail, r0, p := fs[1..], Render(fs[0]), Seeker(fs[i].key) + x;
      var u, o := Joined(tail) + "}", Offset(tail, i - 1);
      TailOk(fs, i);
      MeansSearchable(tail, i - 1);
      JoinedSearch(tail, i - 1, x);
      JoinedStep(fs, i);
      RestShape(fs, 0);
      FieldAndComma(fs[0], u, fs[1].key, fs[i].key, x);
      ClearSplit(r0 + ",", u, p, o);
      UnimitatedStep(fs, i, x);
    }
  }

  lemma FirstAndRest(fs: seq<Field>)
    requires |fs| > 0
    ensures Offset(fs, 0) == 0 && (Joined(fs) + "}")[0..] == Joined(fs) + "}" == Render(fs[0]) + Rest(fs, 0)
  {
    hide Render;
    var r := Render(fs[0]);
    if |fs| > 1 { Regroup(r, ",", Joined(fs[1..]), "}"); }
  }

  lemma Regroup(a: string, b: string, c: string, d: string)
    ensures a + b + c + d == a + (b + c + d)
  {}

  lemma SearchableMeans(fs: seq<Field>, i: nat)
    requires i < |fs| && Searchable(fs, i)
    ensures AllOk(fs) && NewKey(fs, i) && PlainKey(fs[i].key)
  {}

  lemma MeansSearchable(fs: seq<Field>, i: nat)
    requires i < |fs| && AllOk(fs) && NewKey(fs, i) && PlainKey(fs[i].key)
    ensures Searchable(fs, i)
  {}

  lemma NoneBeforeFirst(fs: seq<Field>, x: string)
    requires |fs| > 0
    ensures Unimitated(fs, 0, x)
  {}

  lemma TailOk(fs: seq<Field>, i: nat)
    requires AllOk(fs) && 0 < i < |fs| && NewKey(fs, i)
    ensures AllOk(fs[1..]) && FieldOk(fs[0]) && NextKey(fs, 0) == Some(fs[1].key)
    ensures fs[1..][i - 1] == fs[i] && fs[i].key != fs[0].key && NewKey(fs[1..], i - 1)
  {
    hide FieldOk;
    var tail := fs[1..];
    assert forall p :: 0 <= p < |tail| ==> tail[p] == fs[p + 1];
  }

  lemma SliceShift(pre: string, u: string, o: nat)
    requires o <= |u|
    ensures |pre| + o <= |pre + u| && (pre + u)[|pre| + o..] == u[o..]
  {}

  lemma NothingBefore(t: string, p: string)
    ensures Clear(t, p, 0)
  {}

  lemma UnimitatedStep(fs: seq<Field>, i: nat, x: string)
    requires 0 < i < |fs|
    ensures Unimitated(fs, i, x) <==>
      !Imitates(fs[0], NextKey(fs, 0), fs[i].key, x) && Unimitated(fs[1..], i - 1, x)
  {
    hide Imitates;
    var tail := fs[1..];
    forall p: nat | p < |tail| ensures tail[p] == fs[p + 1] && NextKey(tail, p) == NextKey(fs, p + 1) {}
    if !Imitates(fs[0], NextKey(fs, 0), fs[i].key, x) && Unimitated(tail, i - 1, x) {
      forall p | 0 <= p < i ensures !Imitates(fs[p], NextKey(fs, p), fs[i].key, x) {
        if p > 0 { assert !Imitates(tail[p - 1], NextKey(tail, p - 1), tail[i - 1].key, x); }
      }
    }
    if Unimitated(fs, i, x) {
      forall p | 0 <= p < i - 1 ensures !Imitates(tail[p], NextKey(tail, p), tail[i - 1].key, x) {
        assert !Imitates(fs[p + 1], NextKey(fs, p + 1), fs[i].key, x);
      }
    }
  }

  lemma JoinedStep(fs: seq<Field>, i: nat)
    requires 0 < i < |fs|
    ensures var u := Joined(fs[1..]) + "}";
      && Joined(fs) + "}" == Render(fs[0]) + "," + u && Rest(fs[1..], i - 1) == Rest(fs, i)
      && Rest(fs, 0) == "," + u && Offset(fs, i) == |Render(fs[0]) + ","| + Offset(fs[1..], i - 1)
  {
    hide Render;
    assert fs[1..][i..] == fs[i + 1..];
    assert "," + Joined(fs[1..]) + "}" == "," + (Joined(fs[1..]) + "}");
  }

  lemma ObjectPosition(fs: seq<Field>, i: nat)
    requires i < |fs|
    ensures var t := Object(fs); var o := 1 + Offset(fs, i);
      o <= |t| && t[o..] == Render(fs[i]) + Rest(fs, i)
  {
    hide Offset, Rest, Joined, Render;
    JoinedPosition(fs, i);
    assert Object(fs) == "{" + (Joined(fs) + "}");
    SliceShift("{", Joined(fs) + "}", Offset(fs, i));
  }

  lemma ObjectSearch(fs: seq<Field>, i: nat, x: string)
    requires i < |fs| && Searchable(fs, i) && |x| <= 1
    ensures Clear(Object(fs), Seeker(fs[i].key) + x, 1 + Offset(fs, i)) <==> Unimitated(fs, i, x)
  {
    hide Offset, Rest, Joined, Render, Unimitated, Searchable, PlainKey, Seeker;
    var u, o, p := Joined(fs) + "}", Offset(fs, i), Seeker(fs[i].key) + x;
    JoinedSearch(fs, i, x);
    assert ("{" + u)[0] == '{';
    StartsElsewhere("{" + u, fs[i].key, x, 0);
    ClearSplit("{", u, p, o);
    assert Object(fs) == "{" + u;
  }

  /** The search for a field's key, with or without the opening quote of its value, finds the field itself exactly
      when no field before it imitates the key. */
  lemma FieldFound(fs: seq<Field>, i: nat)
    requires i < |fs| && Searchable(fs, i)
    ensures var t := Object(fs); var o := 1 + Offset(fs, i); var k := Seeker(fs[i].key);
      && o <= |t| && t[o..] == Render(fs[i]) + Rest(fs, i)
      && (Find(t, k) == Some(o) <==> Unimitated(fs, i, ""))
      && (fs[i].Str? ==> (Find(t, k + "\"") == Some(o) <==> Unimitated(fs, i, "\"")))
  {
    hide Offset, Rest, Joined, Render, Object, Seeker, Unimitated, Searchable, Clear;
    var t, o, k := Object(fs), 1 + Offset(fs, i), Seeker(fs[i].key);
    ObjectPosition(fs, i);
    ObjectSearch(fs, i, "");
    ObjectSearch(fs, i, "\"");
    RenderedStart(fs[i], Rest(fs, i));
    assert k + "" == k;
    FirstIs(t, k, o);
    if fs[i].Str? { FirstIs(t, k + "\"", o); }
  }

  /** No key is a single colon, as in every object of the program. */
  ghost predicate NoColonKey(fs: seq<Field>) { forall i :: 0 <= i < |fs| ==> fs[i].key != ":" }

  /** No key starts with a colon. */
  ghost predicate NoColonFirst(fs: seq<Field>) { forall i :: 0 <= i < |fs| ==> !(":" <= fs[i].key) }

  /** Then no value can imitate a key, whatever it is. */
  lemma NothingImitates(fs: seq<Field>, i: nat)
    requires AllOk(fs) && i < |fs|
    ensures NoColonKey(fs) ==> Unimitated(fs, i, "\"")
    ensures NoColonFirst(fs) ==> Unimitated(fs, i, "") && NoColonKey(fs)
  {
    hide Imitates, NoColonKey, NoColonFirst;
    forall p | 0 <= p < i
      ensures NoColonKey(fs) ==> !Imitates(fs[p], NextKey(fs, p), fs[i].key, "\"")
      ensures NoColonFirst(fs) ==> !Imitates(fs[p], NextKey(fs, p), fs[i].key, "") {
      DoesNotImitate(fs, p, i);
    }
    ColonFirst(fs);
  }

  lemma ColonFirst(fs: seq<Field>)
    ensures NoColonFirst(fs) ==> NoColonKey(fs)
  {}

  lemma DoesNotImitate(fs: seq<Field>, p: nat, i: nat)
    requires AllOk(fs) && p < i < |fs|
    ensures NoColonKey(fs) ==> !Imitates(fs[p], NextKey(fs, p), fs[i].key, "\"")
    ensures NoColonFirst(fs) ==> !Imitates(fs[p], NextKey(fs, p), fs[i].key, "")
  {
    var g := fs[p + 1].key;
    assert FieldOk(fs[p + 1]);
    ColonQuote(g, "");
    ColonQuote(g, "\"");
    ColonFirst(fs);
    assert NextKey(fs, p) == Some(g);
    hide Gap;
  }

  lemma ColonQuote(g: string, x: string)
    requires QuoteFree(g)
    ensures x == "\"" && ":" + x <= g + "\"" ==> g == ":"
    ensures x == "" && ":" + x <= g + "\"" ==> ":" <= g
  {
    if ":" + x <= g + "\"" {
      assert (g + "\"")[0] == (":" + x)[0] == ':';
      assert g != "" && g[0] == ':';
      if x == "\"" {
        assert (g + "\"")[1] == (":" + x)[1] == '"';
        assert forall i :: 0 <= i < |g| ==> (g + "\"")[i] == g[i];
        assert |g| == 1;
      }
    }
  }

  /** A value imitates the key `:` exactly when it is a colon itself. */
  lemma ColonValue(f: Field, next: Option<string>)
    requires f.Str? && FieldOk(f)
    ensures Imitates(f, next, ":", "\"") <==> f.body == ":"
  {
    var e := f.body;
    if ":" + "\"" <= e + "\"" {
      assert (e + "\"")[0] == (":" + "\"")[0] == ':' && (e + "\"")[1] == (":" + "\"")[1] == '"';
      assert e != "" && e[0] == ':';
      assert forall i :: 0 <= i < |e| ==> (e + "\"")[i] == e[i];
      assert |e| == 1;
    }
    assert ":" != Gap(f);
  }

  lemma RenderStr(key: string, body: string)
    ensures Render(Str(key, body)) == "\"" + key + "\":\"" + body + "\""
  {}

  lemma RenderNum(key: string, body: string)
    ensures Render(Num(key, body)) == "\"" + key + "\":" + body
  {}

  lemma RenderedStart(f: Field, rest: string)
    ensures Seeker(f.key) <= Render(f) + rest
    ensures f.Str? ==> Seeker(f.key) + "\"" <= Render(f) + rest
  {}

  lemma FirstIs(t: string, p: string, o: nat)
    requires o <= |t| && p <= t[o..]
    ensures Find(t, p) == Some(o) <==> Clear(t, p, o)
  {
    assert t[o..o + |p|] == p;
    assert MatchAt(t, p, o);
  }

  lemma Differs(t: string, p: string, j: nat, k: nat)
    requires k < |p| && j + k < |t| && t[j + k] != p[k]
    ensures !MatchAt(t, p, j)
  {
    assert j + |p| <= |t| ==> t[j..j + |p|][k] == t[j + k];
  }

  /** So a key that is a single colon is found exactly when no earlier text field is a single colon itself; every
      other key is found in any object without such a key (NothingImitates). */
  lemma ColonKeyFound(fs: seq<Field>, i: nat)
    requires i < |fs| && Searchable(fs, i) && fs[i].Str? && fs[i].key == ":"
    ensures Find(Object(fs), Seeker(":") + "\"") == Some(1 + Offset(fs, i)) <==>
      forall p :: 0 <= p < i && fs[p].Str? ==> fs[p].body != ":"
  {
    hide Find, Object, Offset, Rest, Render, Seeker, Imitates;
    FieldFound(fs, i);
    forall p | 0 <= p < i
      ensures Imitates(fs[p], NextKey(fs, p), ":", "\"") <==> fs[p].Str? && fs[p].body == ":" {
      assert FieldOk(fs[p]);
      if fs[p].Str? { ColonValue(fs[p], NextKey(fs, p)); } else { NumberIsNoColon(fs[p], NextKey(fs, p)); }
    }
  }

  lemma NumberIsNoColon(f: Field, next: Option<string>)
    requires f.Num?
    ensures !Imitates(f, next, ":", "\"")
  {
    assert |Gap(f)| >= 2;
  }
}
