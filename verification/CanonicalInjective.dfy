/** Canonical JSON determines the tree (crates/ft-core/src/hash.rs, `write_canonical`, `state_hash`). */
module CanonicalInjective {
  import opened Utf8
  import opened CanonicalJson

  // --- strings ----------------------------------------------------------------------------------------------------

  /** No escape is the beginning of another. */
  lemma EscapeUnambiguous(c: char, d: char, x: string, y: string)
    requires Escape(c) + x == Escape(d) + y
    ensures c == d && x == y
  {
    var e, f := Escape(c), Escape(d);
    var s := e + x;
    assert e[0] == s[0] == f[0];
    assert |e| > 1 ==> e[1] == s[1];
    assert |f| > 1 ==> f[1] == s[1];
    assert |e| > 4 ==> e[4] == s[4] && e[5] == s[5];
    assert |f| > 4 ==> f[4] == s[4] && f[5] == s[5];
    EscapeShape(c);
    EscapeShape(d);
    EscapeInjective(c, d);
    assert x == s[|e|..] && y == s[|f|..];
  }

  /** The length of an escape shows in its first two characters. */
  lemma EscapeShape(c: char)
    ensures var e := Escape(c);
            |e| == (if e[0] != '\\' then 1 else if |e| > 1 && e[1] == 'u' then 6 else 2)
  {
  }

  lemma HexInjective(m: int, n: int)
    requires 0 <= m < 16 && 0 <= n < 16 && HexDigit(m) == HexDigit(n)
    ensures m == n
  {
    var h := "0123456789abcdef";
    assert h[0] < h[1] < h[2] < h[3] < h[4] < h[5] < h[6] < h[7]
         < h[8] < h[9] < h[10] < h[11] < h[12] < h[13] < h[14] < h[15];
  }

  lemma EscapeInjective(c: char, d: char)
    ensures |Escape(c)| == |Escape(d)| && Escape(c)[0] == Escape(d)[0]
            && (|Escape(c)| > 1 ==> Escape(c)[1] == Escape(d)[1])
            && (|Escape(c)| > 4 ==> Escape(c)[4] == Escape(d)[4] && Escape(c)[5] == Escape(d)[5])
            ==> c == d
  {
    var m, n := c as int, d as int;
    if |Escape(c)| == 6 && |Escape(d)| == 6 && Escape(c)[4] == Escape(d)[4] && Escape(c)[5] == Escape(d)[5] {
      HexInjective(m / 16, n / 16);
      HexInjective(m % 16, n % 16);
    }
  }

  lemma EscapedEmpty(x: string)
    ensures var u := EscapeAll([]) + "\"" + x; u[0] == '"' && u[1..] == x
  {
    assert EscapeAll([]) + "\"" + x == "\"" + x;
  }

  lemma EscapedLead(s: string, x: string)
    requires s != []
    ensures var u := EscapeAll(s) + "\"" + x;
            u[0] != '"' && u == Escape(s[0]) + (EscapeAll(s[1..]) + "\"" + x)
  {
    var e, rest := Escape(s[0]), EscapeAll(s[1..]);
    assert EscapeAll(s) == e + rest;
    hide Escape, EscapeAll;
    assert e + rest + "\"" + x == e + (rest + "\"" + x);
    assert (e + rest + "\"" + x)[0] == e[0];
  }

  /** An escaped string ends at its first bare quote. */
  lemma {:induction false} EscapedUnambiguous(s: string, t: string, x: string, y: string)
    requires EscapeAll(s) + "\"" + x == EscapeAll(t) + "\"" + y
    ensures s == t && x == y
    decreases |s|
  {
    hide Escape, EscapeAll;
    if s == [] {
      EscapedEmpty(x);
    } else {
      EscapedLead(s, x);
    }
    if t == [] {
      EscapedEmpty(y);
    } else {
      EscapedLead(t, y);
    }
    if s != [] && t != [] {
      var p, q := EscapeAll(s[1..]) + "\"" + x, EscapeAll(t[1..]) + "\"" + y;
      EscapeUnambiguous(s[0], t[0], p, q);
      EscapedUnambiguous(s[1..], t[1..], x, y);
      assert s == [s[0]] + s[1..] && t == [t[0]] + t[1..];
    }
  }

  lemma QuotedUnambiguous(s: string, t: string, x: string, y: string)
    requires Quoted(s) + x == Quoted(t) + y
    ensures s == t && x == y
  {
    hide EscapeAll;
    var u, v := EscapeAll(s) + "\"" + x, EscapeAll(t) + "\"" + y;
    assert Quoted(s) + x == "\"" + u && Quoted(t) + y == "\"" + v;
    assert u == ("\"" + u)[1..] && v == ("\"" + v)[1..];
    EscapedUnambiguous(s, t, x, y);
  }

  // --- trees ------------------------------------------------------------------------------------------------------

  /** What may follow a value inside a text. */
  predicate Follows(x: string) {
    x == [] || x[0] in ",]}"
  }

  /** A token ends where the number characters end. */
  lemma TokenEnd(t: string, x: string)
    requires IsNumberToken(t) && Follows(x)
    ensures forall i :: 0 <= i < |t| ==> NumberChar((t + x)[i])
    ensures |t| < |t + x| ==> !NumberChar((t + x)[|t|])
    ensures (t + x)[..|t|] == t && (t + x)[|t|..] == x
  {
    NumberTokenChars(t);
    hide IsNumberToken;
    assert |t| < |t + x| ==> (t + x)[|t|] == x[0];
  }

  lemma NumberUnambiguous(s: string, t: string, x: string, y: string)
    requires IsNumberToken(s) && IsNumberToken(t) && Follows(x) && Follows(y) && s + x == t + y
    ensures s == t && x == y
  {
    hide IsNumberToken, NumberChar, Follows;
    TokenEnd(s, x);
    TokenEnd(t, y);
    assert |s| == |t|;
  }

  /** The first character shows the constructor. */
  function Lead(j: Json): char {
    match j
    case Null => 'n'
    case Bool(b) => if b then 't' else 'f'
    case Number(_) => '-'
    case String(_) => '"'
    case Array(_) => '['
    case Object(_) => '{'
  }

  lemma CanonicalLead(j: Json)
    requires WellFormed(j)
    ensures Canonical(j) != []
    ensures j.Number? ==> IsDigit(Canonical(j)[0]) || Canonical(j)[0] == '-'
    ensures !j.Number? ==> Canonical(j)[0] == Lead(j)
  {
    if j.Number? {
      NumberTokenChars(j.token);
    }
  }

  lemma SameLead(a: Json, b: Json, x: string, y: string)
    requires WellFormed(a) && WellFormed(b) && Canonical(a) + x == Canonical(b) + y
    ensures Lead(a) == Lead(b)
  {
    CanonicalLead(a);
    CanonicalLead(b);
    hide Canonical, WellFormed;
    assert Canonical(a)[0] == (Canonical(a) + x)[0] == Canonical(b)[0];
  }

  lemma RestFollows(items: seq<Json>, x: string)
    ensures Follows(RestOfItems(items) + x)
  {
  }

  lemma RestOfFieldsFollows(j: Json, ks: seq<string>, x: string)
    requires j.Object? && forall k :: k in ks ==> k in j.fields
    ensures Follows(RestOfFields(j, ks) + x)
  {
  }

  /** A value is never mistaken for another with the same continuation: the heart of injectivity. */
  lemma {:induction false} ValueUnambiguous(a: Json, b: Json, x: string, y: string)
    requires WellFormed(a) && WellFormed(b) && Follows(x) && Follows(y)
    requires Canonical(a) + x == Canonical(b) + y
    ensures a == b && x == y
    decreases a, 1
  {
    SameLead(a, b, x, y);
    match (a, b)
    case (Null, _) =>
      assert x == (Canonical(a) + x)[4..] && y == (Canonical(b) + y)[4..];
    case (Bool(p), _) =>
      var n := |Canonical(a)|;
      assert x == (Canonical(a) + x)[n..] && y == (Canonical(b) + y)[n..];
    case (Number(s), Number(t)) => NumberUnambiguous(s, t, x, y);
    case (String(s), String(t)) => QuotedUnambiguous(s, t, x, y);
    case (Array(_), Array(_)) => ArrayUnambiguous(a, b, x, y);
    case (Object(_), Object(_)) => ObjectUnambiguous(a, b, x, y);
  }

  lemma ArrayLead(a: Json, x: string)
    requires a.Array? && WellFormed(a)
    ensures var u := Canonical(a) + x;
            if a.items == [] then |u| > 1 && u[1] == ']' && u[2..] == x
            else |u| > 1 && u[1] != ']' && u[1..] == Canonical(a.items[0]) + RestOfItems(a.items[1..]) + x
  {
    var u := Canonical(a) + x;
    if a.items != [] {
      CanonicalLead(a.items[0]);
      hide WellFormed;
      var s := Canonical(a.items[0]) + RestOfItems(a.items[1..]) + x;
      assert u == "[" + s;
      assert u[1] == s[0] == Canonical(a.items[0])[0];
    }
  }

  lemma {:induction false} ArrayUnambiguous(a: Json, b: Json, x: string, y: string)
    requires a.Array? && b.Array? && WellFormed(a) && WellFormed(b)
    requires Canonical(a) + x == Canonical(b) + y
    ensures a == b && x == y
    decreases a, 0
  {
    ArrayLead(a, x);
    ArrayLead(b, y);
    if a.items != [] && b.items != [] {
      FirstItemUnambiguous(a.items, b.items, x, y);
    }
  }

  ghost predicate AllWellFormed(items: seq<Json>) {
    forall i :: 0 <= i < |items| ==> WellFormed(items[i])
  }

  lemma WellFormedParts(items: seq<Json>)
    requires items != [] && AllWellFormed(items)
    ensures WellFormed(items[0]) && AllWellFormed(items[1..]) && items == [items[0]] + items[1..]
  {
    hide WellFormed;
  }

  /** The first item, then everything after it. */
  lemma ItemThenRest(items: seq<Json>, x: string)
    requires items != []
    ensures Canonical(items[0]) + RestOfItems(items[1..]) + x == Canonical(items[0]) + (RestOfItems(items[1..]) + x)
  {
    hide Canonical, RestOfItems;
  }

  lemma {:induction false} FirstItemUnambiguous(a: seq<Json>, b: seq<Json>, x: string, y: string)
    requires a != [] && b != [] && AllWellFormed(a) && AllWellFormed(b)
    requires Canonical(a[0]) + RestOfItems(a[1..]) + x == Canonical(b[0]) + RestOfItems(b[1..]) + y
    ensures a == b && x == y
    decreases a, 1
  {
    hide Canonical, WellFormed, Follows, RestOfItems, AllWellFormed;
    RestFollows(a[1..], x);
    RestFollows(b[1..], y);
    ItemThenRest(a, x);
    ItemThenRest(b, y);
    WellFormedParts(a);
    WellFormedParts(b);
    ValueUnambiguous(a[0], b[0], RestOfItems(a[1..]) + x, RestOfItems(b[1..]) + y);
    ItemsUnambiguous(a[1..], b[1..], x, y);
  }

  /** What the rest of the items starts with, and what then follows. */
  lemma RestLead(items: seq<Json>, x: string)
    ensures var s := RestOfItems(items) + x;
            && s != [] && s[0] == (if items == [] then ']' else ',')
            && s[1..] == (if items == [] then x else Canonical(items[0]) + RestOfItems(items[1..]) + x)
  {
    hide Canonical;
  }

  lemma {:induction false} ItemsUnambiguous(a: seq<Json>, b: seq<Json>, x: string, y: string)
    requires AllWellFormed(a) && AllWellFormed(b) && RestOfItems(a) + x == RestOfItems(b) + y
    ensures a == b && x == y
    decreases a, 2
  {
    hide Canonical, AllWellFormed, RestOfItems;
    RestLead(a, x);
    RestLead(b, y);
    if a != [] {
      FirstItemUnambiguous(a, b, x, y);
    }
  }

  /** Two objects agree on some keys. */
  ghost predicate AgreeOn(a: Json, b: Json, ks: seq<string>)
    requires a.Object? && b.Object?
  {
    forall k :: k in ks ==> k in a.fields && k in b.fields && a.fields[k] == b.fields[k]
  }

  lemma FieldLead(a: Json, k: string)
    requires a.Object? && k in a.fields
    ensures CanonicalField(a, k) != [] && CanonicalField(a, k)[0] == '"'
  {
    hide Canonical, EscapeAll;
  }

  lemma ObjectLead(a: Json, x: string)
    requires a.Object?
    ensures var u, ks := Canonical(a) + x, SortedKeys(a.fields.Keys);
            if ks == [] then |u| > 1 && u[1] == '}' && u[2..] == x
            else |u| > 1 && u[1] != '}' && u[1..] == CanonicalField(a, ks[0]) + RestOfFields(a, ks[1..]) + x
  {
    hide Canonical, SortedKeys, RestOfFields, CanonicalField;
    ObjectText(a);
    var ks := SortedKeys(a.fields.Keys);
    if ks == [] {
      assert FieldsFrom(a, ks, 0) == "}" by { FieldsEnd(a, ks); }
      hide FieldsFrom;
      assert Canonical(a) == "{}";
    } else {
      var s := CanonicalField(a, ks[0]) + RestOfFields(a, ks[1..]);
      assert FieldsFrom(a, ks, 0) == s;
      hide FieldsFrom;
      FieldLead(a, ks[0]);
      assert Canonical(a) + x == "{" + (s + x);
      assert (s + x)[0] == CanonicalField(a, ks[0])[0];
    }
  }

  lemma {:induction false} ObjectUnambiguous(a: Json, b: Json, x: string, y: string)
    requires a.Object? && b.Object? && WellFormed(a) && WellFormed(b)
    requires Canonical(a) + x == Canonical(b) + y
    ensures a == b && x == y
    decreases a, 0
  {
    hide Canonical, SortedKeys, WellFormed, CanonicalField, RestOfFields;
    ObjectLead(a, x);
    ObjectLead(b, y);
    var ks, ls := SortedKeys(a.fields.Keys), SortedKeys(b.fields.Keys);
    if ks != [] && ls != [] {
      FirstFieldUnambiguous(a, ks, b, ls, x, y);
    }
    SameObject(a, b, ks);
  }

  lemma SameObject(a: Json, b: Json, ks: seq<string>)
    requires a.Object? && b.Object? && AgreeOn(a, b, ks)
    requires (forall k :: k in ks <==> k in a.fields.Keys) && (forall k :: k in ks <==> k in b.fields.Keys)
    ensures a == b
  {
    assert a.fields.Keys == b.fields.Keys;
    assert a.fields == b.fields;
  }

  lemma {:induction false} FirstFieldUnambiguous(a: Json, ks: seq<string>, b: Json, ls: seq<string>,
                                                 x: string, y: string)
    requires a.Object? && b.Object? && WellFormed(a) && WellFormed(b) && ks != [] && ls != []
    requires (forall k :: k in ks ==> k in a.fields) && (forall k :: k in ls ==> k in b.fields)
    requires CanonicalField(a, ks[0]) + RestOfFields(a, ks[1..]) + x
          == CanonicalField(b, ls[0]) + RestOfFields(b, ls[1..]) + y
    ensures ks == ls && x == y && AgreeOn(a, b, ks)
    decreases a, 0, |ks|, 1
  {
    hide Canonical, CanonicalField, WellFormed, Follows, RestOfFields;
    var k, l := ks[0], ls[0];
    var p, q := RestOfFields(a, ks[1..]) + x, RestOfFields(b, ls[1..]) + y;
    FieldThenRest(a, ks, x);
    FieldThenRest(b, ls, y);
    KeyThenText(k, l, Canonical(a.fields[k]) + p, Canonical(b.fields[l]) + q);
    RestOfFieldsFollows(a, ks[1..], x);
    RestOfFieldsFollows(b, ls[1..], y);
    FieldWellFormed(a, k);
    FieldWellFormed(b, l);
    ValueUnambiguous(a.fields[k], b.fields[l], p, q);
    FieldsUnambiguous(a, ks[1..], b, ls[1..], x, y);
    assert ks == [k] + ks[1..] && ls == [l] + ls[1..];
  }

  lemma FieldWellFormed(j: Json, k: string)
    requires j.Object? && k in j.fields && WellFormed(j)
    ensures WellFormed(j.fields[k])
  {
  }

  lemma FieldThenRest(j: Json, ks: seq<string>, x: string)
    requires j.Object? && ks != [] && forall k :: k in ks ==> k in j.fields
    ensures CanonicalField(j, ks[0]) + RestOfFields(j, ks[1..]) + x
         == Quoted(ks[0]) + (":" + (Canonical(j.fields[ks[0]]) + (RestOfFields(j, ks[1..]) + x)))
  {
    hide Quoted, Canonical, RestOfFields;
  }

  lemma KeyThenText(k: string, l: string, v: string, w: string)
    requires Quoted(k) + (":" + v) == Quoted(l) + (":" + w)
    ensures k == l && v == w
  {
    hide Quoted;
    QuotedUnambiguous(k, l, ":" + v, ":" + w);
    assert v == (":" + v)[1..] && w == (":" + w)[1..];
  }

  lemma {:induction false} FieldsUnambiguous(a: Json, ks: seq<string>, b: Json, ls: seq<string>, x: string, y: string)
    requires a.Object? && b.Object? && WellFormed(a) && WellFormed(b)
    requires (forall k :: k in ks ==> k in a.fields) && (forall k :: k in ls ==> k in b.fields)
    requires RestOfFields(a, ks) + x == RestOfFields(b, ls) + y
    ensures ks == ls && x == y && AgreeOn(a, b, ks)
    decreases a, 0, |ks|, 2
  {
    hide CanonicalField, WellFormed;
    var s, t := RestOfFields(a, ks) + x, RestOfFields(b, ls) + y;
    assert s[0] == (if ks == [] then '}' else ',') && t[0] == (if ls == [] then '}' else ',');
    if ks == [] {
      assert x == s[1..] && y == t[1..];
    } else {
      assert s[1..] == CanonicalField(a, ks[0]) + RestOfFields(a, ks[1..]) + x;
      assert t[1..] == CanonicalField(b, ls[0]) + RestOfFields(b, ls[1..]) + y;
      FirstFieldUnambiguous(a, ks, b, ls, x, y);
    }
  }

  /** Canonical JSON is injective: two trees have one text, and the same bytes, exactly when they are the same value,
      objects compared without regard to the order of their keys. */
  lemma CanonicalIsInjective(a: Json, b: Json)
    requires WellFormed(a) && WellFormed(b)
    ensures Canonical(a) == Canonical(b) <==> a == b
    ensures Encode(Canonical(a)) == Encode(Canonical(b)) <==> a == b
  {
    BytesOrderStrings(Canonical(a), Canonical(b));
    if Canonical(a) == Canonical(b) {
      assert Canonical(a) + [] == Canonical(b) + [];
      ValueUnambiguous(a, b, [], []);
    }
  }

  // --- the preimage of a state hash --------------------------------------------------------------------------------

  const HASH_FIELDS: set<string> := {"state_hash", "prev_state_hash"}

  /** The record's tree with the two hash fields taken out of its envelope, if it has one. */
  function Elided(v: Json): Json {
    if v.Object? && "envelope" in v.fields && v.fields["envelope"].Object? then
      Object(v.fields["envelope" := Object(v.fields["envelope"].fields - HASH_FIELDS)])
    else v
  }

  /** The bytes `state_hash` digests. */
  ghost function HashedBytes(v: Json): Bytes {
    Encode(Canonical(Elided(v)))
  }

  /** `state_hash` up to the digest: take the two fields out of the envelope, then write to a fresh buffer. */
  method WriteHashed(v: Json) returns (bytes: Bytes)
    ensures bytes == HashedBytes(v)
  {
    var value := v;
    if v.Object? && "envelope" in v.fields && v.fields["envelope"].Object? {
      var envelope := v.fields["envelope"].fields;
      envelope := envelope - {"state_hash"};
      envelope := envelope - {"prev_state_hash"};
      assert envelope == v.fields["envelope"].fields - HASH_FIELDS;
      value := Object(v.fields["envelope" := Object(envelope)]);
    }
    hide Canonical, Encode;
    var buf := new Buffer();
    WriteCanonical(buf, value);
    assert [] + Encode(Canonical(value)) == Encode(Canonical(value));
    bytes := buf.bytes;
  }

  /** Two records hash the same bytes exactly when they agree outside the two hash fields of their envelopes. */
  lemma StateHashPreimage(a: Json, b: Json)
    requires WellFormed(a) && WellFormed(b)
    ensures HashedBytes(a) == HashedBytes(b) <==> Elided(a) == Elided(b)
  {
    hide WellFormed, Canonical, Elided, Encode;
    ElidedWellFormed(a);
    ElidedWellFormed(b);
    CanonicalIsInjective(Elided(a), Elided(b));
  }

  /** Two objects have the same fields besides some. */
  ghost predicate SameBut(e: map<string, Json>, f: map<string, Json>, ks: set<string>) {
    && (forall k :: k !in ks ==> (k in e <==> k in f))
    && (forall k :: k !in ks && k in e && k in f ==> e[k] == f[k])
  }

  /** Two records with envelopes hash the same bytes exactly if they agree on everything besides `state_hash` and
      `prev_state_hash` in the envelope. */
  lemma OnlyHashFieldsAreIgnored(a: Json, b: Json)
    requires WellFormed(a) && WellFormed(b) && a.Object? && b.Object?
    requires "envelope" in a.fields && a.fields["envelope"].Object?
    requires "envelope" in b.fields && b.fields["envelope"].Object?
    ensures HashedBytes(a) == HashedBytes(b) <==>
            SameBut(a.fields, b.fields, {"envelope"})
            && SameBut(a.fields["envelope"].fields, b.fields["envelope"].fields, {"state_hash", "prev_state_hash"})
  {
    StateHashPreimage(a, b);
    hide HashedBytes, WellFormed, SameBut, Elided;
    var e, f := a.fields["envelope"].fields, b.fields["envelope"].fields;
    ElidedEnvelope(a);
    ElidedEnvelope(b);
    assert HASH_FIELDS == {"state_hash", "prev_state_hash"};
    SameOutside(e, f, HASH_FIELDS);
    SameOutside(a.fields, b.fields, {"envelope"});
    SamePut(a.fields, b.fields, "envelope", Object(e - HASH_FIELDS), Object(f - HASH_FIELDS));
  }

  lemma ElidedEnvelope(v: Json)
    requires v.Object? && "envelope" in v.fields && v.fields["envelope"].Object?
    ensures Elided(v) == Object(v.fields["envelope" := Object(v.fields["envelope"].fields - HASH_FIELDS)])
  {
  }

  lemma SameOutside(e: map<string, Json>, f: map<string, Json>, ks: set<string>)
    ensures e - ks == f - ks <==> SameBut(e, f, ks)
  {
    if e - ks == f - ks {
      forall k | k !in ks
        ensures k in e <==> k in f
        ensures k in e && k in f ==> e[k] == f[k]
      {
        assert k in e <==> k in e - ks;
        assert k in f <==> k in f - ks;
        assert k in e ==> (e - ks)[k] == e[k];
        assert k in f ==> (f - ks)[k] == f[k];
      }
    }
  }

  lemma SamePut(e: map<string, Json>, f: map<string, Json>, k: string, v: Json, w: Json)
    ensures e[k := v] == f[k := w] <==> e - {k} == f - {k} && v == w
  {
    assert e[k := v] - {k} == e - {k} && f[k := w] - {k} == f - {k};
    assert e[k := v] == (e - {k})[k := v] && f[k := w] == (f - {k})[k := w];
    assert e[k := v][k] == v && f[k := w][k] == w;
  }

  /** Rewriting the two hash fields, and nothing else, leaves the hashed bytes alone. */
  lemma HashFieldsAreIgnored(v: Json, hashes: map<string, Json>)
    requires v.Object? && "envelope" in v.fields && v.fields["envelope"].Object?
    requires hashes.Keys <= {"state_hash", "prev_state_hash"}
    ensures var w := Object(v.fields["envelope" := Object(v.fields["envelope"].fields + hashes)]);
            HashedBytes(w) == HashedBytes(v)
  {
    hide Canonical, Encode;
    var env := v.fields["envelope"].fields;
    var w := Object(v.fields["envelope" := Object(env + hashes)]);
    assert (env + hashes) - HASH_FIELDS == env - HASH_FIELDS;
    assert Elided(w) == Elided(v);
  }

  lemma ElidedWellFormed(v: Json)
    requires WellFormed(v)
    ensures WellFormed(Elided(v))
  {
  }
}
