/** A reader for JSON texts without whitespace, written from RFC 8259 alone, and what it makes of canonical texts
    (crates/ft-core/src/hash.rs). */
module JsonReader {
  import opened Wrappers
  import opened Text
  import opened Utf8
  import opened CanonicalJson
  import opened CanonicalInjective

  // --- characters of a string, section 7 ---------------------------------------------------------------------------

  /** What a backslash and one character stand for. */
  function ShortEscape(c: char): Option<char> {
    match c
    case '"' => Some('"')
    case '\\' => Some('\\')
    case '/' => Some('/')
    case 'b' => Some(8 as char)
    case 'f' => Some(12 as char)
    case 'n' => Some('\n')
    case 'r' => Some('\r')
    case 't' => Some('\t')
    case _ => None
  }

  function HexValue(c: char): Option<nat> {
    if '0' <= c <= '9' then Some(c as int - '0' as int)
    else if 'a' <= c <= 'f' then Some(10 + c as int - 'a' as int)
    else if 'A' <= c <= 'F' then Some(10 + c as int - 'A' as int)
    else None
  }

  /** The number four hexadecimal digits write. */
  function FourHex(t: string): Option<nat>
    requires |t| == 4
  {
    match (HexValue(t[0]), HexValue(t[1]), HexValue(t[2]), HexValue(t[3]))
    case (Some(a), Some(b), Some(c), Some(d)) => Some(((a * 16 + b) * 16 + c) * 16 + d)
    case _ => None
  }

  /** The first character a string text stands for, and the text behind it. Surrogates by their codes are not read. */
  function ReadChar(t: string): (r: Option<(char, string)>)
    ensures r.Some? ==> |r.value.1| < |t|
  {
    if t == [] || t[0] == '"' || t[0] as int < 0x20 then None
    else if t[0] != '\\' then Some((t[0], t[1..]))
    else if |t| >= 2 && ShortEscape(t[1]).Some? then Some((ShortEscape(t[1]).value, t[2..]))
    else if |t| >= 6 && t[1] == 'u' then
      match FourHex(t[2..6])
      case Some(n) => if n < 0xD800 || 0xE000 <= n < 0x1_0000 then Some((n as char, t[6..])) else None
      case None => None
    else None
  }

  /** The characters up to the closing quote, and the text behind it. */
  function ReadString(t: string): (r: Option<(string, string)>)
    ensures r.Some? ==> |r.value.1| < |t|
    decreases |t|
  {
    if t != [] && t[0] == '"' then Some(("", t[1..]))
    else
      match ReadChar(t)
      case None => None
      case Some((c, rest)) =>
        match ReadString(rest)
        case None => None
        case Some((s, after)) => Some(([c] + s, after))
  }

  // --- values, sections 2 to 6 -------------------------------------------------------------------------------------

  /** How many of the first characters could belong to a number. */
  function NumberLength(t: string): (n: nat)
    ensures n <= |t| && forall i :: 0 <= i < n ==> NumberChar(t[i])
    ensures n < |t| ==> !NumberChar(t[n])
  {
    if t == [] || !NumberChar(t[0]) then 0
    else
      assert forall i :: 1 <= i < |t| ==> t[i] == t[1..][i - 1];
      1 + NumberLength(t[1..])
  }

  /** The value a text begins with, and the text behind it. */
  ghost function ReadValue(t: string): (r: Option<(Json, string)>)
    ensures r.Some? ==> |r.value.1| < |t|
    decreases |t|, 0
  {
    if t == [] then None
    else
      match t[0]
      case 'n' => if StartsWith(t, "null") then Some((Null, t[4..])) else None
      case 't' => if StartsWith(t, "true") then Some((Bool(true), t[4..])) else None
      case 'f' => if StartsWith(t, "false") then Some((Bool(false), t[5..])) else None
      case '"' =>
        (match ReadString(t[1..])
         case None => None
         case Some((s, rest)) => Some((String(s), rest)))
      case '[' =>
        if |t| > 1 && t[1] == ']' then Some((Array([]), t[2..]))
        else
          (match ReadItems(t[1..])
           case None => None
           case Some((items, rest)) => Some((Array(items), rest)))
      case '{' =>
        if |t| > 1 && t[1] == '}' then Some((Object(map[]), t[2..]))
        else
          (match ReadFields(t[1..])
           case None => None
           case Some((fields, rest)) => Some((Object(fields), rest)))
      case _ => ReadNumber(t)
  }

  /** The number a text begins with. */
  ghost function ReadNumber(t: string): (r: Option<(Json, string)>)
    ensures r.Some? ==> |r.value.1| < |t|
  {
    var token := t[..NumberLength(t)];
    if IsNumberToken(token) then
      NumberTokenChars(token);
      Some((Number(token), t[|token|..]))
    else None
  }

  /** Values between commas, up to the closing bracket. */
  ghost function ReadItems(t: string): (r: Option<(seq<Json>, string)>)
    ensures r.Some? ==> |r.value.1| < |t|
    decreases |t|, 1
  {
    match ReadValue(t)
    case None => None
    case Some((v, rest)) =>
      if StartsWith(rest, "]") then Some(([v], rest[1..]))
      else if StartsWith(rest, ",") then
        match ReadItems(rest[1..])
        case None => None
        case Some((items, after)) => Some(([v] + items, after))
      else None
  }

  /** Names and values with colons between them, between commas, up to the closing brace. */
  ghost function ReadFields(t: string): (r: Option<(map<string, Json>, string)>)
    ensures r.Some? ==> |r.value.1| < |t|
    decreases |t|, 1
  {
    if !StartsWith(t, "\"") then None
    else
      match ReadString(t[1..])
      case None => None
      case Some((k, colon)) =>
        if !StartsWith(colon, ":") then None
        else
          match ReadValue(colon[1..])
          case None => None
          case Some((v, rest)) =>
            if StartsWith(rest, "}") then Some((map[k := v], rest[1..]))
            else if StartsWith(rest, ",") then
              match ReadFields(rest[1..])
              case None => None
              case Some((fields, after)) => Some((map[k := v] + fields, after))
            else None
  }

  // --- what is written is read -------------------------------------------------------------------------------------

  lemma HexDigitValue(n: int)
    requires 0 <= n < 16
    ensures HexValue(HexDigit(n)) == Some(n) && !('A' <= HexDigit(n) <= 'F')
  {
  }

  /** The escape of a character is read as that character. */
  lemma EscapeReadsBack(c: char, x: string)
    ensures ReadChar(Escape(c) + x) == Some((c, x))
  {
    var e, n := Escape(c), c as int;
    var t := e + x;
    assert t[..|e|] == e && t[|e|..] == x;
    assert forall i :: 0 <= i < |e| ==> t[i] == e[i];
    if |e| == 6 {
      HexDigitValue(0);
      HexDigitValue(n / 16);
      HexDigitValue(n % 16);
      assert t[2..6] == e[2..6] == ['0', '0', HexDigit(n / 16), HexDigit(n % 16)];
    }
  }

  predicate UpperHexFree(e: string) {
    forall i :: 0 <= i < |e| ==> !('A' <= e[i] <= 'F')
  }

  /** A text that is read as one character: the character, a pair, or four digits. */
  lemma ReadWhole(e: string)
    requires ReadChar(e).Some? && ReadChar(e).value.1 == ""
    ensures |e| == 1 || |e| == 2 || |e| == 6
    ensures |e| == 1 ==> e[0] != '"' && e[0] != '\\' && e[0] as int >= 0x20 && e == [ReadChar(e).value.0]
    ensures |e| == 2 ==> e == ['\\', e[1]] && ShortEscape(e[1]) == Some(ReadChar(e).value.0)
    ensures |e| == 6 ==> e == ['\\', 'u'] + e[2..6] && FourHex(e[2..6]) == Some(ReadChar(e).value.0 as int)
  {
  }

  /** A character is escaped if it has to be, by a pair if there is one. */
  lemma EscapeLength(c: char)
    ensures |Escape(c)| == 1 <==> c != '"' && c != '\\' && c as int >= 0x20
    ensures |Escape(c)| > 1 ==> (|Escape(c)| == 2 <==> exists p :: ShortEscape(p) == Some(c))
    ensures |Escape(c)| == 1 || |Escape(c)| == 2 || (|Escape(c)| == 6 && c as int < 32)
  {
    assert ShortEscape('"') == Some('"') && ShortEscape('\\') == Some('\\') && ShortEscape('b') == Some(8 as char)
        && ShortEscape('f') == Some(12 as char) && ShortEscape('n') == Some('\n') && ShortEscape('r') == Some('\r')
        && ShortEscape('t') == Some('\t');
  }

  /** No two characters after a backslash stand for the same. */
  lemma ShortEscapeOnce(p: char, q: char)
    requires ShortEscape(p).Some? && ShortEscape(p) == ShortEscape(q)
    ensures p == q
  {
  }

  /** The escape is the shortest text that is read as the character: with a backslash and one character whenever there
      is such a pair and the character cannot stand for itself, and otherwise with lower-case digits. */
  lemma EscapeIsShortest(c: char, e: string)
    requires ReadChar(e) == Some((c, ""))
    ensures |Escape(c)| <= |e|
    ensures |Escape(c)| == |e| && (|e| == 6 ==> UpperHexFree(e)) ==> e == Escape(c)
    ensures |Escape(c)| == 6 ==> UpperHexFree(Escape(c))
  {
    EscapeLength(c);
    ReadWhole(e);
    EscapeReadsBack(c, "");
    assert Escape(c) + "" == Escape(c);
    ReadWhole(Escape(c));
    hide ReadChar, ShortEscape, FourHex, Escape;
    if |e| == 2 && |Escape(c)| == 2 {
      ShortEscapeOnce(e[1], Escape(c)[1]);
    }
    if |Escape(c)| == 6 {
      EscapedDigits(c);
      if |e| == 6 && UpperHexFree(e) {
        assert forall i :: 0 <= i < 4 ==> e[2..6][i] == e[i + 2];
        FourHexUnique(e[2..6], c as int);
      }
    }
  }

  lemma EscapedDigits(c: char)
    requires |Escape(c)| == 6
    ensures var n := c as int;
            && n < 32 && Escape(c) == ['\\', 'u'] + ['0', '0', HexDigit(n / 16), HexDigit(n % 16)]
            && UpperHexFree(Escape(c))
  {
    HexDigitValue(c as int / 16);
    HexDigitValue(c as int % 16);
  }

  /** Four lower-case digits for a small number. */
  lemma FourHexUnique(t: string, n: nat)
    requires |t| == 4 && FourHex(t) == Some(n) && UpperHexFree(t)
    ensures n < 32 ==> t == ['0', '0', HexDigit(n / 16), HexDigit(n % 16)]
  {
    var a, b, c, d := HexValue(t[0]).value, HexValue(t[1]).value, HexValue(t[2]).value, HexValue(t[3]).value;
    HexOfValue(t[0]);
    HexOfValue(t[1]);
    HexOfValue(t[2]);
    HexOfValue(t[3]);
    assert HexDigit(0) == '0';
    if n < 32 {
      SmallNumber(a, b, c, d, n);
    }
    hide HexValue, HexDigit;
  }

  lemma SmallNumber(a: nat, b: nat, c: nat, d: nat, n: nat)
    requires n == ((a * 16 + b) * 16 + c) * 16 + d < 32 && d < 16
    ensures a == 0 && b == 0 && n / 16 == c && n % 16 == d
  {
  }

  lemma HexOfValue(c: char)
    requires HexValue(c).Some? && !('A' <= c <= 'F')
    ensures 0 <= HexValue(c).value < 16 && HexDigit(HexValue(c).value) == c
  {
  }

  /** A quoted string is read as the string, whatever follows. */
  lemma {:induction false} StringReadsBack(s: string, x: string)
    ensures ReadString(EscapeAll(s) + "\"" + x) == Some((s, x))
    decreases |s|
  {
    hide Escape, ReadChar, EscapeAll;
    if s == [] {
      EscapedEmpty(x);
    } else {
      EscapedLead(s, x);
      var rest := EscapeAll(s[1..]) + "\"" + x;
      EscapeReadsBack(s[0], rest);
      StringReadsBack(s[1..], x);
      assert s == [s[0]] + s[1..];
    }
  }

  lemma QuotedReadsBack(s: string, x: string)
    ensures StartsWith(Quoted(s) + x, "\"") && ReadString((Quoted(s) + x)[1..]) == Some((s, x))
  {
    hide EscapeAll, ReadString;
    StringReadsBack(s, x);
    assert Quoted(s) + x == "\"" + (EscapeAll(s) + "\"" + x);
    assert (Quoted(s) + x)[1..] == EscapeAll(s) + "\"" + x;
  }

  lemma NumberReadsBack(t: string, x: string)
    requires IsNumberToken(t) && Follows(x)
    ensures ReadValue(t + x) == Some((Number(t), x))
  {
    NumberTokenChars(t);
    TokenEnd(t, x);
    hide IsNumberToken, NumberChar;
    assert NumberLength(t + x) == |t|;
    assert (t + x)[0] == t[0];
  }

  /** Every canonical text is read as the value it was written from, wherever it stands. */
  lemma {:induction false} ValueReadsBack(j: Json, x: string)
    requires WellFormed(j) && Follows(x)
    ensures ReadValue(Canonical(j) + x) == Some((j, x))
    decreases j, 1
  {
    match j
    case Null => LiteralReadsBack(j, x);
    case Bool(_) => LiteralReadsBack(j, x);
    case Number(t) => NumberReadsBack(t, x);
    case String(s) => StringValueReadsBack(s, x);
    case Array(_) => ArrayReadsBack(j, x);
    case Object(_) => ObjectReadsBack(j, x);
  }

  lemma LiteralReadsBack(j: Json, x: string)
    requires j.Null? || j.Bool?
    ensures ReadValue(Canonical(j) + x) == Some((j, x))
  {
    var word := if j.Null? then "null" else if j.b then "true" else "false";
    var t := word + x;
    assert Canonical(j) == word && t[|word|..] == x && StartsWith(t, word) && t[0] == word[0];
    hide ReadString, ReadItems, ReadFields, ReadNumber, Canonical;
  }

  lemma StringValueReadsBack(s: string, x: string)
    ensures ReadValue(Quoted(s) + x) == Some((String(s), x))
  {
    hide Quoted, ReadString;
    QuotedReadsBack(s, x);
    OpenQuote(Quoted(s) + x);
  }

  lemma OpenQuote(t: string)
    requires t != [] && t[0] == '"' && ReadString(t[1..]).Some?
    ensures ReadValue(t) == Some((String(ReadString(t[1..]).value.0), ReadString(t[1..]).value.1))
  {
    hide ReadString, ReadItems, ReadFields, ReadNumber;
  }

  /** How a text that begins with a bracket is read. */
  lemma OpenBracket(t: string)
    requires |t| > 1 && t[0] == '['
    ensures t[1] == ']' ==> ReadValue(t) == Some((Array([]), t[2..]))
    ensures t[1] != ']' && ReadItems(t[1..]).Some? ==>
              ReadValue(t) == Some((Array(ReadItems(t[1..]).value.0), ReadItems(t[1..]).value.1))
  {
    hide ReadItems, ReadFields, ReadString, ReadNumber;
  }

  /** How a text that begins with a brace is read. */
  lemma OpenBrace(t: string)
    requires |t| > 1 && t[0] == '{'
    ensures t[1] == '}' ==> ReadValue(t) == Some((Object(map[]), t[2..]))
    ensures t[1] != '}' && ReadFields(t[1..]).Some? ==>
              ReadValue(t) == Some((Object(ReadFields(t[1..]).value.0), ReadFields(t[1..]).value.1))
  {
    hide ReadItems, ReadFields, ReadString, ReadNumber;
  }

  /** How a value among items is read. */
  lemma OneItem(t: string, v: Json, rest: string)
    requires ReadValue(t) == Some((v, rest)) && rest != []
    ensures rest[0] == ']' ==> ReadItems(t) == Some(([v], rest[1..]))
    ensures rest[0] == ',' && ReadItems(rest[1..]).Some? ==>
              ReadItems(t) == Some(([v] + ReadItems(rest[1..]).value.0, ReadItems(rest[1..]).value.1))
  {
    hide ReadValue;
  }

  /** How a name and a value among fields are read. */
  lemma OneField(t: string, k: string, text: string, v: Json, rest: string)
    requires StartsWith(t, "\"") && ReadString(t[1..]) == Some((k, ":" + text)) && ReadValue(text) == Some((v, rest))
    requires rest != []
    ensures rest[0] == '}' ==> ReadFields(t) == Some((map[k := v], rest[1..]))
    ensures rest[0] == ',' && ReadFields(rest[1..]).Some? ==>
              ReadFields(t) == Some((map[k := v] + ReadFields(rest[1..]).value.0, ReadFields(rest[1..]).value.1))
  {
    hide ReadValue, ReadString;
    assert (":" + text)[1..] == text;
  }

  lemma {:induction false} ArrayReadsBack(j: Json, x: string)
    requires j.Array? && WellFormed(j) && Follows(x)
    ensures ReadValue(Canonical(j) + x) == Some((j, x))
    decreases j, 0
  {
    ArrayLead(j, x);
    assert (Canonical(j) + x)[0] == '[';
    OpenBracket(Canonical(j) + x);
    hide Canonical, RestOfItems, ReadItems, ReadValue, Follows;
    assert j == Array(j.items);
    if j.items != [] {
      var t := Canonical(j.items[0]) + RestOfItems(j.items[1..]) + x;
      ItemsReadBack(j.items, x);
      assert ReadItems(t) == Some((j.items, x));
      assert (Canonical(j) + x)[1..] == t;
    }
  }

  lemma {:induction false} ItemsReadBack(items: seq<Json>, x: string)
    requires items != [] && AllWellFormed(items) && Follows(x)
    ensures ReadItems(Canonical(items[0]) + RestOfItems(items[1..]) + x) == Some((items, x))
    decreases items, 1
  {
    hide Canonical, WellFormed, RestOfItems, AllWellFormed, ReadValue, ReadItems, Follows;
    RestFollows(items[1..], x);
    ItemThenRest(items, x);
    WellFormedParts(items);
    ValueReadsBack(items[0], RestOfItems(items[1..]) + x);
    RestLead(items[1..], x);
    OneItem(Canonical(items[0]) + (RestOfItems(items[1..]) + x), items[0], RestOfItems(items[1..]) + x);
    assert items[1..] == [] ==> items == [items[0]];
    if items[1..] != [] {
      ItemsReadBack(items[1..], x);
    }
  }

  /** The fields with the given keys. */
  ghost function FieldsOf(j: Json, ks: seq<string>): map<string, Json>
    requires j.Object? && forall k :: k in ks ==> k in j.fields
  {
    map k | k in ks :: j.fields[k]
  }

  lemma {:induction false} ObjectReadsBack(j: Json, x: string)
    requires j.Object? && WellFormed(j) && Follows(x)
    ensures ReadValue(Canonical(j) + x) == Some((j, x))
    decreases j, 0
  {
    ObjectLead(j, x);
    ObjectStarts(j, x);
    OpenBrace(Canonical(j) + x);
    hide Canonical, SortedKeys, RestOfFields, CanonicalField, ReadFields, ReadValue, WellFormed, Follows;
    var ks := SortedKeys(j.fields.Keys);
    AllFields(j, ks);
    if ks != [] {
      var t := CanonicalField(j, ks[0]) + RestOfFields(j, ks[1..]) + x;
      FieldsReadBack(j, ks, x);
      assert ReadFields(t) == Some((j.fields, x));
      assert (Canonical(j) + x)[1..] == t;
    }
  }

  lemma AllFields(j: Json, ks: seq<string>)
    requires j.Object? && forall k :: k in ks <==> k in j.fields.Keys
    ensures j == Object(FieldsOf(j, ks)) && (ks == [] ==> j == Object(map[]))
  {
    assert FieldsOf(j, ks) == j.fields;
  }

  lemma ObjectStarts(j: Json, x: string)
    requires j.Object?
    ensures (Canonical(j) + x)[0] == '{'
  {
    hide Canonical, FieldsFrom, SortedKeys;
    ObjectText(j);
  }

  lemma {:induction false} FieldsReadBack(j: Json, ks: seq<string>, x: string)
    requires j.Object? && WellFormed(j) && Follows(x) && ks != [] && forall k :: k in ks ==> k in j.fields
    ensures ReadFields(CanonicalField(j, ks[0]) + RestOfFields(j, ks[1..]) + x) == Some((FieldsOf(j, ks), x))
    decreases j, 0, |ks|
  {
    hide Canonical, CanonicalField, WellFormed, Follows, RestOfFields, Quoted, ReadString, ReadValue, ReadFields;
    var k, p := ks[0], RestOfFields(j, ks[1..]) + x;
    var text := Canonical(j.fields[k]) + p;
    FieldThenRest(j, ks, x);
    QuotedReadsBack(k, ":" + text);
    RestOfFieldsFollows(j, ks[1..], x);
    FieldWellFormed(j, k);
    ValueReadsBack(j.fields[k], p);
    FieldsLead(j, ks[1..], x);
    OneField(Quoted(k) + (":" + text), k, text, j.fields[k], p);
    if ks[1..] != [] {
      FieldsReadBack(j, ks[1..], x);
    }
    FirstOfFields(j, ks);
  }

  lemma FirstOfFields(j: Json, ks: seq<string>)
    requires j.Object? && ks != [] && forall k :: k in ks ==> k in j.fields
    ensures FieldsOf(j, ks) == map[ks[0] := j.fields[ks[0]]] + FieldsOf(j, ks[1..])
    ensures ks[1..] == [] ==> FieldsOf(j, ks) == map[ks[0] := j.fields[ks[0]]]
  {
    assert ks == [ks[0]] + ks[1..];
  }

  /** What the rest of the fields starts with, and what then follows. */
  lemma FieldsLead(j: Json, ks: seq<string>, x: string)
    requires j.Object? && forall k :: k in ks ==> k in j.fields
    ensures var s := RestOfFields(j, ks) + x;
            && s != [] && s[0] == (if ks == [] then '}' else ',')
            && s[1..] == (if ks == [] then x else CanonicalField(j, ks[0]) + RestOfFields(j, ks[1..]) + x)
  {
    hide CanonicalField;
  }

  /** The bytes written are those of a text that is read as the value, with nothing left over. */
  lemma CanonicalIsRead(j: Json)
    requires WellFormed(j)
    ensures Decode(Encode(Canonical(j))) == Some(Canonical(j))
    ensures ReadValue(Canonical(j)) == Some((j, ""))
  {
    hide Canonical, ReadValue, WellFormed, Decode, Encode;
    TextDecodes(Canonical(j));
    ValueReadsBack(j, "");
    assert Canonical(j) + "" == Canonical(j);
  }
}
