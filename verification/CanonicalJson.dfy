/** Canonical JSON and the text under a state hash (crates/ft-core/src/hash.rs). */
module CanonicalJson {
  import opened Text
  import opened Utf8

  /** A JSON tree. Objects are unordered; a number is the token it is printed as. */
  datatype Json =
    | Null
    | Bool(b: bool)
    | Number(token: string)
    | String(s: string)
    | Array(items: seq<Json>)
    | Object(fields: map<string, Json>)

  // --- number tokens, section 6 of RFC 8259 -----------------------------------------------------------------------

  predicate IsDigit(c: char) {
    '0' <= c <= '9'
  }

  predicate Digits(s: string) {
    s != [] && forall i :: 0 <= i < |s| ==> IsDigit(s[i])
  }

  ghost predicate NumberParts(minus: string, whole: string, frac: string, exp: string) {
    && (minus == "" || minus == "-")
    && Digits(whole) && (whole == "0" || whole[0] != '0')
    && (frac == "" || (frac[0] == '.' && Digits(frac[1..])))
    && (exp == "" || (exp[0] in "eE" && (Digits(exp[1..]) || (|exp| > 1 && exp[1] in "+-" && Digits(exp[2..])))))
  }

  ghost predicate IsNumberToken(t: string) {
    exists minus, whole, frac, exp :: NumberParts(minus, whole, frac, exp) && t == minus + whole + frac + exp
  }

  predicate NumberChar(c: char) {
    IsDigit(c) || c in "+-.eE"
  }

  lemma PartsAreNumberChars(minus: string, whole: string, frac: string, exp: string)
    requires NumberParts(minus, whole, frac, exp)
    ensures forall i :: 0 <= i < |minus| ==> NumberChar(minus[i])
    ensures forall i :: 0 <= i < |whole| ==> NumberChar(whole[i])
    ensures forall i :: 0 <= i < |frac| ==> NumberChar(frac[i])
    ensures forall i :: 0 <= i < |exp| ==> NumberChar(exp[i])
  {
    assert forall i :: 1 <= i < |frac| ==> frac[i] == frac[1..][i - 1];
    assert forall i :: 1 <= i < |exp| ==> exp[i] == exp[1..][i - 1];
    assert forall i :: 2 <= i < |exp| ==> exp[i] == exp[2..][i - 2];
  }

  lemma NumberTokenChars(t: string)
    requires IsNumberToken(t)
    ensures t != [] && (IsDigit(t[0]) || t[0] == '-')
    ensures forall i :: 0 <= i < |t| ==> NumberChar(t[i])
  {
    var minus, whole, frac, exp :| NumberParts(minus, whole, frac, exp) && t == minus + whole + frac + exp;
    PartsAreNumberChars(minus, whole, frac, exp);
    assert t[0] == (minus + whole)[0];
  }

  /** All number tokens in the tree are well formed. */
  ghost predicate WellFormed(j: Json)
    decreases j
  {
    match j
    case Number(t) => IsNumberToken(t)
    case Array(items) => forall i :: 0 <= i < |items| ==> WellFormed(items[i])
    case Object(fields) => forall k :: k in fields ==> WellFormed(fields[k])
    case _ => true
  }

  // --- strings, section 7 of RFC 8259 -----------------------------------------------------------------------------

  function HexDigit(n: int): char
    requires 0 <= n < 16
  {
    "0123456789abcdef"[n]
  }

  /** The escape of one character. */
  function Escape(c: char): (r: string)
    ensures r != [] && r[0] != '"'
  {
    var n := c as int;
    if c == '"' then "\\\""
    else if c == '\\' then "\\\\"
    else if n == 8 then "\\b"
    else if n == 9 then "\\t"
    else if n == 10 then "\\n"
    else if n == 12 then "\\f"
    else if n == 13 then "\\r"
    else if n < 32 then ['\\', 'u', '0', '0', HexDigit(n / 16), HexDigit(n % 16)]
    else [c]
  }

  function EscapeAll(s: string): string {
    if s == [] then [] else Escape(s[0]) + EscapeAll(s[1..])
  }

  function Quoted(s: string): string {
    "\"" + EscapeAll(s) + "\""
  }

  // --- trees ------------------------------------------------------------------------------------------------------

  ghost predicate Ascending(ks: seq<string>) {
    forall i, j :: 0 <= i < j < |ks| ==> ks[i] != ks[j] && LexLe(ks[i], ks[j])
  }

  ghost predicate IsLeast(k: string, s: set<string>) {
    k in s && forall x :: x in s ==> LexLe(k, x)
  }

  lemma LeastExists(s: set<string>)
    requires s != {}
    ensures exists k :: IsLeast(k, s)
  {
    var x :| x in s;
    if s == {x} {
      LexTotal(x, x);
      assert IsLeast(x, s);
    } else {
      LeastExists(s - {x});
      var k :| IsLeast(k, s - {x});
      LexTotal(k, x);
      LexTotal(x, x);
      if LexLe(k, x) {
        assert IsLeast(k, s);
      } else {
        forall y | y in s
          ensures LexLe(x, y)
        {
          if y != x {
            LexTransitive(x, k, y);
          }
        }
        assert IsLeast(x, s);
      }
    }
  }

  /** The keys of an object in ascending order. */
  ghost function SortedKeys(s: set<string>): (ks: seq<string>)
    ensures Ascending(ks) && |ks| == |s| && forall k :: k in ks <==> k in s
  {
    if s == {} then []
    else
      LeastExists(s);
      var k :| IsLeast(k, s);
      [k] + SortedKeys(s - {k})
  }

  lemma HasFirst(a: seq<string>)
    ensures a != [] ==> a[0] in a
  {
  }

  lemma TailMembers(a: seq<string>, k: string)
    requires Ascending(a) && a != []
    ensures k in a[1..] <==> k in a && k != a[0]
  {
    if k in a && k != a[0] {
      var i :| 0 <= i < |a| && a[i] == k;
      assert a[1..][i - 1] == k;
    }
  }

  lemma SameFirst(a: seq<string>, b: seq<string>)
    requires Ascending(a) && Ascending(b) && a != [] && b != [] && a[0] in b && b[0] in a
    ensures a[0] == b[0]
  {
    var i :| 0 <= i < |b| && b[i] == a[0];
    var j :| 0 <= j < |a| && a[j] == b[0];
    LexTotal(a[0], a[0]);
    LexAntisymmetric(a[0], b[0]);
  }

  lemma {:induction false} AscendingUnique(a: seq<string>, b: seq<string>)
    requires Ascending(a) && Ascending(b) && forall k :: k in a <==> k in b
    ensures a == b
    decreases |a|
  {
    HasFirst(a);
    HasFirst(b);
    if a != [] {
      SameFirst(a, b);
      forall k
        ensures k in a[1..] <==> k in b[1..]
      {
        TailMembers(a, k);
        TailMembers(b, k);
      }
      AscendingUnique(a[1..], b[1..]);
      assert a == [a[0]] + a[1..] && b == [b[0]] + b[1..];
    }
  }

  /** Keys stand in the order of their bytes. */
  lemma KeysByBytes(s: set<string>, i: nat, j: nat)
    requires i < j < |SortedKeys(s)|
    ensures BytesLe(Encode(SortedKeys(s)[i]), Encode(SortedKeys(s)[j]))
    ensures SortedKeys(s)[i] in s && SortedKeys(s)[i] != SortedKeys(s)[j]
  {
    var ks := SortedKeys(s);
    hide SortedKeys, BytesLe, Encode, LexLe;
    assert LexLe(ks[i], ks[j]) && ks[i] in ks;
    BytesOrderStrings(ks[i], ks[j]);
  }

  /** The canonical text of a tree: no whitespace, keys ascending. */
  ghost function Canonical(j: Json): string
    decreases j, 0
  {
    match j
    case Null => "null"
    case Bool(b) => if b then "true" else "false"
    case Number(t) => t
    case String(s) => Quoted(s)
    case Array(items) => "[" + (if items == [] then "]" else Canonical(items[0]) + RestOfItems(items[1..]))
    case Object(fields) =>
      var ks := SortedKeys(fields.Keys);
      "{" + (if ks == [] then "}" else CanonicalField(j, ks[0]) + RestOfFields(j, ks[1..]))
  }

  ghost function RestOfItems(items: seq<Json>): string
    decreases items, 0
  {
    if items == [] then "]" else "," + Canonical(items[0]) + RestOfItems(items[1..])
  }

  ghost function CanonicalField(j: Json, k: string): string
    requires j.Object? && k in j.fields
    decreases j, 0, 0
  {
    Quoted(k) + ":" + Canonical(j.fields[k])
  }

  ghost function RestOfFields(j: Json, ks: seq<string>): string
    requires j.Object? && forall k :: k in ks ==> k in j.fields
    decreases j, 0, |ks|, 1
  {
    if ks == [] then "}" else "," + CanonicalField(j, ks[0]) + RestOfFields(j, ks[1..])
  }

  // --- writing ----------------------------------------------------------------------------------------------------

  /** A byte buffer that so far holds the bytes of `text`. */
  class Buffer {
    var bytes: Bytes
    ghost var text: string

    ghost predicate Valid()
      reads this
    {
      bytes == Encode(text)
    }

    constructor ()
      ensures Valid() && text == ""
    {
      bytes, text := [], "";
    }

    method Extend(s: string)
      requires Valid()
      modifies this
      ensures Valid() && text == old(text) + s && bytes == old(bytes) + Encode(s)
    {
      EncodeConcat(text, s);
      bytes, text := bytes + Encode(s), text + s;
    }
  }

  /** `serde_json::to_string` of a string. */
  method EncodeString(s: string) returns (encoded: string)
    ensures encoded == Quoted(s)
  {
    encoded := "\"";
    var i := 0;
    while i < |s|
      invariant 0 <= i <= |s|
      invariant encoded + EscapeAll(s[i..]) == "\"" + EscapeAll(s)
    {
      assert s[i..][1..] == s[i + 1..];
      assert (encoded + Escape(s[i])) + EscapeAll(s[i + 1..]) == encoded + EscapeAll(s[i..]);
      encoded := encoded + Escape(s[i]);
      i := i + 1;
    }
    encoded := encoded + "\"";
  }

  /** The keys of a map, sorted: taken in any order, each put in its place. */
  method KeysSorted(fields: map<string, Json>) returns (keys: seq<string>)
    ensures keys == SortedKeys(fields.Keys)
  {
    keys := [];
    var rest := fields.Keys;
    while rest != {}
      invariant rest <= fields.Keys
      invariant Ascending(keys) && forall k :: k in keys <==> k in fields.Keys - rest
      decreases |rest|
    {
      var k :| k in rest;
      keys := InsertKey(keys, k);
      rest := rest - {k};
    }
    AscendingUnique(keys, SortedKeys(fields.Keys));
  }

  method InsertKey(keys: seq<string>, k: string) returns (r: seq<string>)
    requires Ascending(keys) && k !in keys
    ensures Ascending(r) && forall x :: x in r <==> x in keys || x == k
  {
    var i := 0;
    while i < |keys| && LexLe(keys[i], k)
      invariant 0 <= i <= |keys| && forall j :: 0 <= j < i ==> LexLe(keys[j], k)
    {
      i := i + 1;
    }
    InsertedKeys(keys, k, i);
    r := keys[..i] + [k] + keys[i..];
  }

  lemma InsertedKeys(keys: seq<string>, k: string, i: nat)
    requires Ascending(keys) && k !in keys && i <= |keys|
    requires forall j :: 0 <= j < i ==> LexLe(keys[j], k)
    requires i < |keys| ==> !LexLe(keys[i], k)
    ensures var r := keys[..i] + [k] + keys[i..]; Ascending(r) && forall x :: x in r <==> x in keys || x == k
  {
    hide LexLe;
    forall j | i <= j < |keys|
      ensures LexLe(k, keys[j])
    {
      LexTotal(k, keys[i]);
      if j > i {
        LexTransitive(k, keys[i], keys[j]);
      }
    }
    assert keys == keys[..i] + keys[i..];
  }

  /** The writer appends the bytes of the canonical text and touches nothing before them. */
  method WriteCanonical(buf: Buffer, v: Json)
    requires buf.Valid()
    modifies buf
    ensures buf.Valid() && buf.text == old(buf.text) + Canonical(v)
    ensures buf.bytes == old(buf.bytes) + Encode(Canonical(v))
    decreases v, 0
  {
    EncodeConcat(buf.text, Canonical(v));
    hide Encode;
    match v {
      case Null => buf.Extend("null");
      case Bool(b) => buf.Extend(if b then "true" else "false");
      case Number(n) => buf.Extend(n);
      case String(s) =>
        var encoded := EncodeString(s);
        buf.Extend(encoded);
      case Array(items) => WriteItems(buf, v);
      case Object(fields) => WriteFields(buf, v);
    }
  }

  method WriteItems(buf: Buffer, v: Json)
    requires v.Array? && buf.Valid()
    modifies buf
    ensures buf.Valid() && buf.text == old(buf.text) + Canonical(v)
    decreases v, 0, 0
  {
    hide Encode;
    ghost var goal := buf.text + Canonical(v);
    buf.Extend("[");
    var i := 0;
    while i < |v.items|
      invariant 0 <= i <= |v.items|
      invariant buf.Valid() && buf.text + ItemsFrom(v.items, i) == goal
    {
      ghost var before := buf.text;
      ghost var sep := if i > 0 then "," else "";
      if i > 0 {
        buf.Extend(",");
      }
      WriteCanonical(buf, v.items[i]);
      ItemsStep(v.items, i);
      Reassociate(before, sep, Canonical(v.items[i]), ItemsFrom(v.items, i + 1));
      i := i + 1;
    }
    buf.Extend("]");
  }

  lemma Reassociate(a: string, b: string, c: string, d: string)
    ensures a + (b + c + d) == a + b + c + d
  {
  }

  /** What is still to be written of an array when `i` items are out. */
  ghost function ItemsFrom(items: seq<Json>, i: nat): string
    requires i <= |items|
  {
    if i == 0 && items != [] then Canonical(items[0]) + RestOfItems(items[1..]) else RestOfItems(items[i..])
  }

  lemma ItemsStep(items: seq<Json>, i: nat)
    requires i < |items|
    ensures ItemsFrom(items, i) == (if i > 0 then "," else "") + Canonical(items[i]) + ItemsFrom(items, i + 1)
  {
    if i == 0 {
      assert "" + Canonical(items[0]) == Canonical(items[0]);
    } else {
      assert items[i..][1..] == items[i + 1..];
    }
  }

  ghost function FieldsFrom(v: Json, ks: seq<string>, i: nat): string
    requires v.Object? && (forall k :: k in ks ==> k in v.fields) && i <= |ks|
  {
    if i == 0 && ks != [] then CanonicalField(v, ks[0]) + RestOfFields(v, ks[1..]) else RestOfFields(v, ks[i..])
  }

  lemma FieldsStep(v: Json, ks: seq<string>, i: nat)
    requires v.Object? && (forall k :: k in ks ==> k in v.fields) && i < |ks|
    ensures FieldsFrom(v, ks, i) == (if i > 0 then "," else "") + CanonicalField(v, ks[i]) + FieldsFrom(v, ks, i + 1)
  {
    if i == 0 {
      assert "" + CanonicalField(v, ks[0]) == CanonicalField(v, ks[0]);
    } else {
      assert ks[i..][1..] == ks[i + 1..];
    }
  }

  /** One key and its value, behind a comma if it is not the first. */
  method WriteField(buf: Buffer, v: Json, k: string, first: bool)
    requires v.Object? && k in v.fields && buf.Valid()
    modifies buf
    ensures buf.Valid() && buf.text == old(buf.text) + (if first then "" else ",") + CanonicalField(v, k)
    decreases v, 0, 0, 0
  {
    hide Canonical, Quoted, Encode;
    if !first {
      buf.Extend(",");
    }
    ghost var before := buf.text;
    var encodedKey := EncodeString(k);
    buf.Extend(encodedKey);
    buf.Extend(":");
    WriteCanonical(buf, v.fields[k]);
    assert before + Quoted(k) + ":" + Canonical(v.fields[k]) == before + CanonicalField(v, k);
  }

  method WriteFields(buf: Buffer, v: Json)
    requires v.Object? && buf.Valid()
    modifies buf
    ensures buf.Valid() && buf.text == old(buf.text) + Canonical(v)
    decreases v, 0, 0, 1
  {
    hide Canonical, CanonicalField, SortedKeys, FieldsFrom, Encode;
    var keys := KeysSorted(v.fields);
    ghost var goal := buf.text + Canonical(v);
    ObjectText(v);
    buf.Extend("{");
    var i := 0;
    while i < |keys|
      invariant 0 <= i <= |keys|
      invariant buf.Valid() && buf.text + FieldsFrom(v, keys, i) == goal
    {
      FieldsStep(v, keys, i);
      Reassociate(buf.text, if i > 0 then "," else "", CanonicalField(v, keys[i]), FieldsFrom(v, keys, i + 1));
      WriteField(buf, v, keys[i], i == 0);
      i := i + 1;
    }
    FieldsEnd(v, keys);
    buf.Extend("}");
  }

  lemma FieldsEnd(v: Json, ks: seq<string>)
    requires v.Object? && forall k :: k in ks ==> k in v.fields
    ensures FieldsFrom(v, ks, |ks|) == "}"
  {
    assert ks[|ks|..] == [];
  }

  lemma ObjectText(v: Json)
    requires v.Object?
    ensures Canonical(v) == "{" + FieldsFrom(v, SortedKeys(v.fields.Keys), 0)
  {
  }
}
