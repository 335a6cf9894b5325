/** Record ids, their short forms and their resolution (crates/ft-core/src/id.rs). */
module Id {
  import opened Wrappers
  import opened Text
  import opened Records

  const MIN_DISPLAY_PREFIX: nat := 6
  const HASH_HEX_LEN: nat := 64

  function FromPrefix(p: string): Option<RecordKind> {
    if p == "TASK" then Some(Task)
    else if p == "EPIC" then Some(Epic)
    else if p == "BUG" then Some(Bug)
    else if p == "SUB" then Some(Subtask)
    else if p == "INC" then Some(Incident)
    else if p == "FIND" then Some(Finding)
    else if p == "RUN" then Some(Runbook)
    else if p == "DEC" then Some(Decision)
    else if p == "GOTCHA" then Some(Gotcha)
    else if p == "MEM" then Some(Memory)
    else if p == "DOC" then Some(Doc)
    else if p == "PROFILE" then Some(RepoProfile)
    else None
  }

  predicate IsLowerHex(c: char) {
    '0' <= c <= '9' || 'a' <= c <= 'f'
  }

  predicate IsHexDigit(c: char) {
    '0' <= c <= '9' || 'a' <= c <= 'f' || 'A' <= c <= 'F'
  }

  predicate AllLowerHex(s: string) {
    forall i :: 0 <= i < |s| ==> IsLowerHex(s[i])
  }

  predicate AllHexDigits(s: string) {
    forall i :: 0 <= i < |s| ==> IsHexDigit(s[i])
  }

  datatype IdError = MissingSeparator | UnknownPrefix(prefix: string) | BadTail

  /** `from_string`: `KIND-` and 64 lowercase hex characters. */
  function FromString(s: string): Result<string, IdError> {
    match SplitOnce(s, '-')
    case None => Failure(MissingSeparator)
    case Some((prefix, tail)) =>
      if FromPrefix(prefix).None? then Failure(UnknownPrefix(prefix))
      else if |tail| != HASH_HEX_LEN || !AllLowerHex(tail) then Failure(BadTail)
      else Success(s)
  }

  predicate IsRecordId(s: string) {
    FromString(s).Success?
  }

  function KindOf(id: string): RecordKind
    requires IsRecordId(id)
  {
    FromPrefix(SplitOnce(id, '-').value.0).value
  }

  function TailOf(id: string): (tail: string)
    requires IsRecordId(id)
    ensures |tail| == HASH_HEX_LEN && AllLowerHex(tail)
  {
    SplitOnce(id, '-').value.1
  }

  ghost predicate AllIds(ids: seq<string>) {
    forall i :: 0 <= i < |ids| ==> IsRecordId(ids[i])
  }

  function Min(a: nat, b: nat): nat {
    if a < b then a else b
  }

  /** The kind tag and the first `len` characters of the hash. */
  function Short(id: string, len: nat): string
    requires IsRecordId(id)
  {
    var prefix := SplitOnce(id, '-').value.0;
    id[..|prefix| + 1 + Min(len, HASH_HEX_LEN)]
  }

  // --- display -----------------------------------------------------------------------------------------------------

  /** The hashes of the other candidates of the same kind. */
  function Peers(id: string, candidates: seq<string>): seq<string>
    requires IsRecordId(id) && AllIds(candidates)
  {
    if candidates == [] then []
    else
      var n := |candidates| - 1;
      if candidates[n] != id && KindOf(candidates[n]) == KindOf(id) then
        Peers(id, candidates[..n]) + [TailOf(candidates[n])]
      else Peers(id, candidates[..n])
  }

  /** No other candidate of the kind shares the first `n` characters of the hash. */
  predicate Separated(id: string, candidates: seq<string>, n: nat)
    requires IsRecordId(id) && AllIds(candidates) && n <= HASH_HEX_LEN
  {
    forall c :: c in candidates && c != id && KindOf(c) == KindOf(id) ==> !StartsWith(TailOf(c), TailOf(id)[..n])
  }

  /** The least length from `n` on that separates the id, or all of it. */
  function LengthFrom(id: string, candidates: seq<string>, n: nat): (r: nat)
    requires IsRecordId(id) && AllIds(candidates) && n <= HASH_HEX_LEN
    ensures n <= r <= HASH_HEX_LEN
    ensures r < HASH_HEX_LEN ==> Separated(id, candidates, r)
    ensures forall m :: n <= m < r ==> !Separated(id, candidates, m)
    decreases HASH_HEX_LEN - n
  {
    if n == HASH_HEX_LEN || Separated(id, candidates, n) then n else LengthFrom(id, candidates, n + 1)
  }

  /** The displayed length: the least one of at least six that separates, 64 if none does. */
  function DisplayLength(id: string, candidates: seq<string>): (n: nat)
    requires IsRecordId(id) && AllIds(candidates)
    ensures 6 <= n <= 64
    ensures n < 64 ==> Separated(id, candidates, n)
    ensures forall m :: 6 <= m < n ==> !Separated(id, candidates, m)
  {
    LengthFrom(id, candidates, MIN_DISPLAY_PREFIX)
  }

  function Display(id: string, candidates: seq<string>): string
    requires IsRecordId(id) && AllIds(candidates)
  {
    Short(id, DisplayLength(id, candidates))
  }

  lemma {:induction false} PeersSeparated(id: string, candidates: seq<string>, n: nat)
    requires IsRecordId(id) && AllIds(candidates) && n <= HASH_HEX_LEN
    ensures Separated(id, candidates, n) <==> forall p :: p in Peers(id, candidates) ==> !StartsWith(p, TailOf(id)[..n])
  {
    hide IsRecordId, KindOf, TailOf, StartsWith;
    if candidates != [] {
      var m := |candidates| - 1;
      PeersSeparated(id, candidates[..m], n);
      assert candidates == candidates[..m] + [candidates[m]];
    }
  }

  lemma IdParts(id: string)
    requires IsRecordId(id)
    ensures id == KindOf(id).Prefix() + "-" + TailOf(id)
  {
    var (p, t) := SplitOnce(id, '-').value;
    PrefixRoundTrip(p, KindOf(id));
  }

  lemma PrefixRoundTrip(p: string, k: RecordKind)
    ensures FromPrefix(p) == Some(k) <==> p == k.Prefix()
  {
  }

  lemma ShortParts(id: string, len: nat)
    requires IsRecordId(id)
    ensures Short(id, len) == KindOf(id).Prefix() + "-" + TailOf(id)[..Min(len, HASH_HEX_LEN)]
  {
    IdParts(id);
    var (p, t) := SplitOnce(id, '-').value;
    PrefixRoundTrip(p, KindOf(id));
    hide FromPrefix, FromString;
    assert id[..|p| + 1 + Min(len, HASH_HEX_LEN)] == p + "-" + t[..Min(len, HASH_HEX_LEN)];
  }

  method UnambiguousDisplay(id: string, candidates: seq<string>) returns (display: string)
    requires IsRecordId(id) && AllIds(candidates)
    ensures display == Display(id, candidates)
  {
    hide FromString, FromPrefix, KindOf, TailOf, IsRecordId;
    var selfKind := KindOf(id);
    var selfTail := TailOf(id);
    var peers: seq<string> := [];
    var i := 0;
    while i < |candidates|
      invariant 0 <= i <= |candidates| && peers == Peers(id, candidates[..i])
    {
      assert candidates[..i + 1][..i] == candidates[..i];
      var c := candidates[i];
      if c != id && KindOf(c) == selfKind {
        peers := peers + [TailOf(c)];
      }
      i := i + 1;
    }
    assert candidates[..i] == candidates;
    var n := MIN_DISPLAY_PREFIX;
    while n < |selfTail|
      invariant MIN_DISPLAY_PREFIX <= n <= HASH_HEX_LEN
      invariant LengthFrom(id, candidates, n) == DisplayLength(id, candidates)
    {
      PeersSeparated(id, candidates, n);
      hide Separated;
      if forall p :: p in peers ==> !StartsWith(p, selfTail[..n]) {
        break;
      }
      n := n + 1;
    }
    ShortParts(id, n);
    display := selfKind.Prefix() + "-" + selfTail[..n];
  }

  // --- resolution --------------------------------------------------------------------------------------------------

  datatype ResolveError =
    | EmptyInput
    | EmptyHexPrefix(tag: string)
    | Unknown(prefix: string)
    | Ambiguous(prefix: string, matches: seq<string>)

  predicate Matches(c: string, kind: Option<RecordKind>, hex: string)
    requires IsRecordId(c)
  {
    (kind.Some? ==> KindOf(c) == kind.value) && StartsWith(TailOf(c), hex)
  }

  /** The candidates of the kind, if one was named, whose hash starts with `hex`, in order. */
  function Matching(candidates: seq<string>, kind: Option<RecordKind>, hex: string): seq<string>
    requires AllIds(candidates)
  {
    if candidates == [] then []
    else
      var n := |candidates| - 1;
      if Matches(candidates[n], kind, hex) then Matching(candidates[..n], kind, hex) + [candidates[n]]
      else Matching(candidates[..n], kind, hex)
  }

  /** The prefix scan: one match is the answer. */
  function Scan(input: string, candidates: seq<string>, kind: Option<RecordKind>, hex: string)
    : Result<string, ResolveError>
    requires AllIds(candidates)
  {
    if hex == [] || !AllHexDigits(hex) then Failure(Unknown(input))
    else
      var matches := Matching(candidates, kind, ToAsciiLower(hex));
      if |matches| == 0 then Failure(Unknown(input))
      else if |matches| == 1 then Success(matches[0])
      else Failure(Ambiguous(ToAsciiLower(input), matches))
  }

  /** `resolve_prefix`. */
  function ResolvePrefix(prefix: string, candidates: seq<string>): Result<string, ResolveError>
    requires AllIds(candidates)
  {
    var trimmed := Trim(prefix);
    if trimmed == [] then Failure(EmptyInput)
    else if FromString(trimmed).Success? then
      if trimmed in candidates then Success(trimmed) else Failure(Unknown(trimmed))
    else
      match SplitOnce(trimmed, '-')
      case Some((kindPart, tailPart)) =>
        var upper := ToAsciiUpper(kindPart);
        if FromPrefix(upper).None? then Failure(Unknown(trimmed))
        else if Trim(tailPart) == [] then Failure(EmptyHexPrefix(upper))
        else Scan(trimmed, candidates, FromPrefix(upper), tailPart)
      case None =>
        var upper := ToAsciiUpper(trimmed);
        if !AllHexDigits(trimmed) && FromPrefix(upper).Some? then Failure(EmptyHexPrefix(upper))
        else Scan(trimmed, candidates, None, trimmed)
  }

  /** How often an id is listed. */
  function Count(candidates: seq<string>, id: string): nat {
    if candidates == [] then 0
    else Count(candidates[..|candidates| - 1], id) + (if candidates[|candidates| - 1] == id then 1 else 0)
  }

  lemma {:induction false} CountPositive(candidates: seq<string>, id: string)
    ensures Count(candidates, id) > 0 <==> id in candidates
  {
    if candidates != [] {
      var n := |candidates| - 1;
      CountPositive(candidates[..n], id);
      assert candidates == candidates[..n] + [candidates[n]];
    }
  }

  /** The matches of an id's own prefix hold the id itself as often as it is listed; anything else they
      hold is a peer that shares the prefix. */
  lemma {:induction false} MatchingCounts(id: string, candidates: seq<string>, k: nat)
    requires IsRecordId(id) && AllIds(candidates) && k <= HASH_HEX_LEN
    ensures var m := Matching(candidates, Some(KindOf(id)), TailOf(id)[..k]);
            && |m| >= Count(candidates, id)
            && (|m| == Count(candidates, id) <==> Separated(id, candidates, k))
            && (|m| == Count(candidates, id) ==> forall i :: 0 <= i < |m| ==> m[i] == id)
  {
    hide IsRecordId, KindOf, TailOf, FromString;
    if candidates != [] {
      var n := |candidates| - 1;
      MatchingCounts(id, candidates[..n], k);
      assert candidates == candidates[..n] + [candidates[n]];
    }
  }

  /** A hash is written in sixteen digits, and may be given in capitals. */
  lemma HexDigitsAre(s: string)
    ensures AllLowerHex(s) <==> forall i :: 0 <= i < |s| ==> s[i] in "0123456789abcdef"
    ensures AllHexDigits(s) <==> forall i :: 0 <= i < |s| ==> s[i] in "0123456789abcdefABCDEF"
    ensures AllHexDigits(s) <==> AllLowerHex(ToAsciiLower(s))
  {
    hide AsciiLower;
    forall i | 0 <= i < |s|
      ensures IsLowerHex(s[i]) <==> s[i] in "0123456789abcdef"
      ensures IsHexDigit(s[i]) <==> s[i] in "0123456789abcdefABCDEF"
      ensures IsHexDigit(s[i]) <==> IsLowerHex(ToAsciiLower(s)[i])
    {
      HexDigitIs(s[i]);
    }
    hide IsLowerHex, IsHexDigit;
  }

  lemma HexDigitIs(c: char)
    ensures IsLowerHex(c) <==> c in "0123456789abcdef"
    ensures IsHexDigit(c) <==> c in "0123456789abcdefABCDEF"
    ensures IsHexDigit(c) <==> IsLowerHex(AsciiLower(c))
  {
    SmallDigits(c);
    CapitalDigits(c);
    assert "0123456789abcdefABCDEF" == "0123456789abcdef" + "ABCDEF";
    assert c in "0123456789abcdef" + "ABCDEF" <==> c in "0123456789abcdef" || c in "ABCDEF";
  }

  lemma SmallDigits(c: char)
    ensures IsLowerHex(c) <==> c in "0123456789abcdef"
  {
    var n, digits := c as int, "0123456789abcdef";
    assert '0' <= c <= '9' ==> digits[n - '0' as int] == c;
    assert 'a' <= c <= 'f' ==> digits[n - 'a' as int + 10] == c;
  }

  lemma CapitalDigits(c: char)
    ensures 'A' <= c <= 'F' <==> c in "ABCDEF"
  {
    assert 'A' <= c <= 'F' ==> "ABCDEF"[c as int - 'A' as int] == c;
  }

  lemma HexIsLower(s: string)
    requires AllLowerHex(s)
    ensures AllHexDigits(s) && ToAsciiLower(s) == s
    ensures s != [] ==> Trim(s) == s
  {
    if s != [] {
      assert IsLowerHex(s[0]) && IsLowerHex(s[|s| - 1]);
      TrimIsIdentity(s);
    }
  }

  lemma PrefixIsUpper(k: RecordKind)
    ensures k.Prefix() != [] && '-' !in k.Prefix() && ToAsciiUpper(k.Prefix()) == k.Prefix()
    ensures forall i :: 0 <= i < |k.Prefix()| ==> 'A' <= k.Prefix()[i] <= 'Z'
  {
  }

  lemma ShortIsTrim(p: string, t: string)
    requires p != [] && 'A' <= p[0] <= 'Z' && t != [] && AllLowerHex(t)
    ensures Trim(p + "-" + t) == p + "-" + t
  {
    var s := p + "-" + t;
    assert s[0] == p[0] && s[|s| - 1] == t[|t| - 1];
    assert IsLowerHex(t[|t| - 1]);
    TrimIsIdentity(s);
  }

  /** A short form parses into the kind and the start of the hash. */
  lemma ShortParses(id: string, k: nat)
    requires IsRecordId(id) && 1 <= k <= HASH_HEX_LEN
    ensures var p, t := KindOf(id).Prefix(), TailOf(id)[..k];
            && Trim(Short(id, k)) == Short(id, k) == p + "-" + t && SplitOnce(Short(id, k), '-') == Some((p, t))
            && ToAsciiUpper(p) == p && FromPrefix(p) == Some(KindOf(id)) && Trim(t) != []
            && AllLowerHex(t) && (k == HASH_HEX_LEN ==> Short(id, k) == id)
  {
    ShortParts(id, k);
    IdParts(id);
    assert TailOf(id)[..HASH_HEX_LEN] == TailOf(id);
    hide KindOf, TailOf, FromPrefix, IsRecordId, Short;
    var p, t := KindOf(id).Prefix(), TailOf(id)[..k];
    PrefixIsUpper(KindOf(id));
    PrefixRoundTrip(p, KindOf(id));
    HexIsLower(t);
    ShortIsTrim(p, t);
    assert p + "-" + t == p + ['-'] + t;
    SplitOnceOf(p, '-', t);
  }

  /** How a short form is read: at full length as the id, below it by a scan under its own kind. */
  lemma ResolveShort(id: string, candidates: seq<string>, k: nat)
    requires IsRecordId(id) && AllIds(candidates) && 1 <= k <= HASH_HEX_LEN
    ensures k == HASH_HEX_LEN ==>
              ResolvePrefix(Short(id, k), candidates) == if id in candidates then Success(id) else Failure(Unknown(id))
    ensures k < HASH_HEX_LEN ==>
              ResolvePrefix(Short(id, k), candidates)
              == Scan(Short(id, k), candidates, Some(KindOf(id)), TailOf(id)[..k])
  {
    ShortParses(id, k);
    hide FromPrefix, Trim, Scan, SplitOnce, KindOf, TailOf, Short, ToAsciiUpper, AllLowerHex;
  }

  /** The round trip, exactly: a short form resolves to its id just when it is the full id, or no peer
      shares it and the id is listed once. */
  lemma ShortResolves(id: string, candidates: seq<string>, k: nat)
    requires IsRecordId(id) && AllIds(candidates) && id in candidates && 1 <= k <= HASH_HEX_LEN
    ensures ResolvePrefix(Short(id, k), candidates) == Success(id) <==>
              k == HASH_HEX_LEN || (Separated(id, candidates, k) && Count(candidates, id) == 1)
  {
    hide FromString, KindOf, IsRecordId, Matching, Separated, Short, ResolvePrefix;
    ResolveShort(id, candidates, k);
    CountPositive(candidates, id);
    MatchingCounts(id, candidates, k);
    assert AllLowerHex(TailOf(id)[..k]);
    HexIsLower(TailOf(id)[..k]);
  }

  /** What is displayed resolves to the id, for every list that names it once; when it is listed more
      often, just if the display is the full id. */
  lemma DisplayResolves(id: string, candidates: seq<string>)
    requires IsRecordId(id) && AllIds(candidates) && id in candidates
    ensures ResolvePrefix(Display(id, candidates), candidates) == Success(id) <==>
              DisplayLength(id, candidates) == HASH_HEX_LEN || Count(candidates, id) == 1
  {
    hide ResolvePrefix, IsRecordId, Separated;
    ShortResolves(id, candidates, DisplayLength(id, candidates));
  }

  lemma LongerSeparates(id: string, candidates: seq<string>, n: nat, m: nat)
    requires IsRecordId(id) && AllIds(candidates) && n <= m <= HASH_HEX_LEN && Separated(id, candidates, n)
    ensures Separated(id, candidates, m)
  {
    hide IsRecordId, FromString, KindOf, TailOf;
    assert TailOf(id)[..n] == TailOf(id)[..m][..n];
  }

  /** Every longer short form resolves as well. */
  lemma LongerShortResolves(id: string, candidates: seq<string>, k: nat)
    requires IsRecordId(id) && AllIds(candidates) && Count(candidates, id) == 1
    requires k >= DisplayLength(id, candidates)
    ensures ResolvePrefix(Short(id, k), candidates) == Success(id)
  {
    hide ResolvePrefix, IsRecordId, FromString, FromPrefix, KindOf, TailOf, Separated;
    CountPositive(candidates, id);
    var m := Min(k, HASH_HEX_LEN);
    assert Short(id, k) == Short(id, m);
    hide Short;
    if m < HASH_HEX_LEN {
      LongerSeparates(id, candidates, DisplayLength(id, candidates), m);
    }
    ShortResolves(id, candidates, m);
  }

  /** No two listed ids are displayed alike. */
  lemma DisplaysDiffer(a: string, b: string, candidates: seq<string>)
    requires IsRecordId(a) && IsRecordId(b) && AllIds(candidates) && a in candidates && b in candidates && a != b
    ensures Display(a, candidates) != Display(b, candidates)
  {
    var m, n := DisplayLength(a, candidates), DisplayLength(b, candidates);
    ShortParts(a, m);
    ShortParts(b, n);
    IdParts(a);
    IdParts(b);
    PrefixIsUpper(KindOf(a));
    PrefixIsUpper(KindOf(b));
    var p, q, s, t := KindOf(a).Prefix(), KindOf(b).Prefix(), TailOf(a)[..m], TailOf(b)[..n];
    SplitOnceOf(p, '-', s);
    SplitOnceOf(q, '-', t);
    PrefixRoundTrip(p, KindOf(a));
    PrefixRoundTrip(q, KindOf(b));
    hide FromPrefix, FromString, KindOf, TailOf, Short, IsRecordId;
    assert p + ['-'] + s == p + "-" + s && q + ['-'] + t == q + "-" + t;
    if Display(a, candidates) == Display(b, candidates) {
      assert p == q && s == t;
      SamePrefixSameId(a, b, candidates, m);
      assert false;
    }
  }

  lemma SamePrefixSameId(a: string, b: string, candidates: seq<string>, n: nat)
    requires IsRecordId(a) && IsRecordId(b) && AllIds(candidates) && b in candidates
    requires n == DisplayLength(a, candidates) && KindOf(a) == KindOf(b) && TailOf(a)[..n] == TailOf(b)[..n]
    ensures a == b
  {
    hide FromPrefix, FromString, KindOf, TailOf, IsRecordId;
    IdParts(a);
    IdParts(b);
    if n == HASH_HEX_LEN {
      assert TailOf(a)[..n] == TailOf(a) && TailOf(b)[..n] == TailOf(b);
    } else {
      assert StartsWith(TailOf(b), TailOf(a)[..n]);
    }
  }

  /** The shortcut for full ids agrees with the prefix scan exactly on lists that do not repeat the id. */
  lemma FastPathAgrees(id: string, candidates: seq<string>)
    requires IsRecordId(id) && AllIds(candidates)
    ensures Count(candidates, id) <= 1
            <==> ResolvePrefix(id, candidates) == Scan(id, candidates, Some(KindOf(id)), TailOf(id))
  {
    ResolveShort(id, candidates, HASH_HEX_LEN);
    ShortParts(id, HASH_HEX_LEN);
    IdParts(id);
    assert TailOf(id)[..HASH_HEX_LEN] == TailOf(id);
    CountPositive(candidates, id);
    MatchingCounts(id, candidates, HASH_HEX_LEN);
    HexIsLower(TailOf(id));
    hide FromPrefix, FromString, KindOf, TailOf, Short, IsRecordId, Matching, ResolvePrefix;
    forall c | c in candidates && c != id && KindOf(c) == KindOf(id)
      ensures !StartsWith(TailOf(c), TailOf(id)[..HASH_HEX_LEN])
    {
      IdParts(c);
    }
  }

  // --- what an input names -----------------------------------------------------------------------------------------

  /** The text before position `i` spells the kind in any case, the text behind it starts the hash. */
  predicate NamesAt(input: string, i: nat, c: string)
    requires IsRecordId(c) && i < |input|
  {
    && input[i] == '-' && ToAsciiUpper(input[..i]) == KindOf(c).Prefix()
    && |input[i + 1..]| > 0 && AllHexDigits(input[i + 1..]) && StartsWith(TailOf(c), ToAsciiLower(input[i + 1..]))
  }

  /** An input names an id by kind and start of the hash, or by the start of the hash alone, in any case. */
  ghost predicate Names(input: string, c: string)
    requires IsRecordId(c)
  {
    || (exists i :: 0 <= i < |input| && NamesAt(input, i, c))
    || (input != [] && AllHexDigits(input) && StartsWith(TailOf(c), ToAsciiLower(input)))
  }

  /** The candidates an input names, in order. */
  ghost function Named(input: string, candidates: seq<string>): seq<string>
    requires AllIds(candidates)
  {
    if candidates == [] then []
    else
      var n := |candidates| - 1;
      if Names(input, candidates[n]) then Named(input, candidates[..n]) + [candidates[n]]
      else Named(input, candidates[..n])
  }

  lemma HyphenIsNoHex(input: string, i: nat)
    requires i < |input| && input[i] == '-'
    ensures !AllHexDigits(input)
  {
    assert !IsHexDigit(input[i]);
  }

  lemma HyphenStays(s: string, i: nat)
    requires i < |s| && s[i] == '-'
    ensures '-' in ToAsciiUpper(s)
  {
    assert ToAsciiUpper(s)[i] == '-';
  }

  /** With a hyphen, only the first one can end the kind. */
  lemma NamesAtFirstHyphen(input: string, kindPart: string, tailPart: string, c: string)
    requires IsRecordId(c) && input == kindPart + "-" + tailPart && '-' !in kindPart
    ensures Names(input, c) <==>
            tailPart != [] && AllHexDigits(tailPart)
            && ToAsciiUpper(kindPart) == KindOf(c).Prefix() && StartsWith(TailOf(c), ToAsciiLower(tailPart))
  {
    hide KindOf, TailOf, IsRecordId, FromString, FromPrefix, ToAsciiUpper, ToAsciiLower, AllHexDigits;
    var k := |kindPart|;
    assert input[k] == '-' && input[..k] == kindPart && input[k + 1..] == tailPart;
    HyphenIsNoHex(input, k);
    assert forall i :: 0 <= i < k ==> input[i] == kindPart[i] != '-';
    assert NamesAt(input, k, c) <==>
           ToAsciiUpper(kindPart) == KindOf(c).Prefix() && tailPart != [] && AllHexDigits(tailPart)
           && StartsWith(TailOf(c), ToAsciiLower(tailPart));
    PrefixIsUpper(KindOf(c));
    forall i | 0 <= i < |input| && NamesAt(input, i, c)
      ensures i == k
    {
      if i > k {
        HyphenStays(input[..i], k);
      }
    }
  }

  lemma NamesByHash(input: string, c: string)
    requires IsRecordId(c) && '-' !in input
    ensures Names(input, c) <==> input != [] && AllHexDigits(input) && StartsWith(TailOf(c), ToAsciiLower(input))
  {
  }

  /** If the parsed form matches just what the input names, the scan finds just that. */
  lemma {:induction false} MatchingIsNamed(input: string, candidates: seq<string>, kind: Option<RecordKind>,
                                           hex: string)
    requires AllIds(candidates)
    requires forall c :: c in candidates && IsRecordId(c) ==> (Matches(c, kind, hex) <==> Names(input, c))
    ensures Matching(candidates, kind, hex) == Named(input, candidates)
  {
    hide Matches, Names, IsRecordId;
    if candidates != [] {
      MatchingIsNamed(input, candidates[..|candidates| - 1], kind, hex);
    }
  }

  lemma {:induction false} NothingNamed(input: string, candidates: seq<string>)
    requires AllIds(candidates)
    requires forall c :: c in candidates && IsRecordId(c) ==> !Names(input, c)
    ensures Named(input, candidates) == []
  {
    hide Names, IsRecordId;
    if candidates != [] {
      NothingNamed(input, candidates[..|candidates| - 1]);
    }
  }

  /** One candidate named: that one; several: all of them, as an ambiguity; none: an error. */
  ghost predicate Resolves(input: string, named: seq<string>, res: Result<string, ResolveError>) {
    if |named| == 1 then res == Success(named[0])
    else if |named| > 1 then res == Failure(Ambiguous(ToAsciiLower(input), named))
    else res.Failure? && !res.error.Ambiguous?
  }

  lemma ScanResolves(input: string, candidates: seq<string>, kind: Option<RecordKind>, hex: string)
    requires AllIds(candidates)
    requires forall c :: c in candidates && IsRecordId(c) ==>
      (Names(input, c) <==> hex != [] && AllHexDigits(hex) && Matches(c, kind, ToAsciiLower(hex)))
    ensures Resolves(input, Named(input, candidates), Scan(input, candidates, kind, hex))
  {
    hide Matches, Names, IsRecordId, AllHexDigits, Matching, Named;
    if hex != [] && AllHexDigits(hex) {
      MatchingIsNamed(input, candidates, kind, ToAsciiLower(hex));
    } else {
      NothingNamed(input, candidates);
    }
  }

  lemma KindOfPrefix(id: string, upper: string)
    requires IsRecordId(id)
    ensures FromPrefix(upper) == Some(KindOf(id)) <==> upper == KindOf(id).Prefix()
  {
    hide KindOf, IsRecordId, FromPrefix;
    PrefixRoundTrip(upper, KindOf(id));
  }

  lemma ResolveWithHyphen(input: string, candidates: seq<string>, kindPart: string, tailPart: string)
    requires AllIds(candidates) && SplitOnce(input, '-') == Some((kindPart, tailPart))
    ensures var upper := ToAsciiUpper(kindPart);
            FromPrefix(upper).Some? ==>
              Resolves(input, Named(input, candidates), Scan(input, candidates, FromPrefix(upper), tailPart))
    ensures FromPrefix(ToAsciiUpper(kindPart)).None? || Trim(tailPart) == [] ==> Named(input, candidates) == []
  {
    hide KindOf, TailOf, IsRecordId, FromString, FromPrefix, ToAsciiUpper, ToAsciiLower, AllHexDigits, Names, Trim,
         Scan, Named;
    var upper := ToAsciiUpper(kindPart);
    forall c | c in candidates && IsRecordId(c)
      ensures Names(input, c) <==>
              tailPart != [] && AllHexDigits(tailPart) && FromPrefix(upper) == Some(KindOf(c))
              && StartsWith(TailOf(c), ToAsciiLower(tailPart))
    {
      NamesAtFirstHyphen(input, kindPart, tailPart, c);
      KindOfPrefix(c, upper);
    }
    if FromPrefix(upper).Some? {
      ScanResolves(input, candidates, FromPrefix(upper), tailPart);
    }
    BlankIsNoHex(tailPart);
    if FromPrefix(upper).None? || Trim(tailPart) == [] {
      NothingNamed(input, candidates);
    }
  }

  lemma BlankIsNoHex(s: string)
    ensures Trim(s) == [] ==> s == [] || !AllHexDigits(s)
  {
    if s != [] && AllHexDigits(s) {
      assert IsHexDigit(s[0]) && IsHexDigit(s[|s| - 1]);
      TrimIsIdentity(s);
    }
  }

  lemma ResolveWithoutHyphen(input: string, candidates: seq<string>)
    requires AllIds(candidates) && '-' !in input
    ensures Resolves(input, Named(input, candidates), Scan(input, candidates, None, input))
    ensures input == [] || !AllHexDigits(input) ==> Named(input, candidates) == []
  {
    hide KindOf, TailOf, IsRecordId, ToAsciiLower, AllHexDigits, Names, Scan, Named;
    forall c | c in candidates && IsRecordId(c)
      ensures Names(input, c) <==> input != [] && AllHexDigits(input) && StartsWith(TailOf(c), ToAsciiLower(input))
    {
      NamesByHash(input, c);
    }
    ScanResolves(input, candidates, None, input);
    if input == [] || !AllHexDigits(input) {
      NothingNamed(input, candidates);
    }
  }

  /** Any input that is not a full id resolves to the one candidate it names, and to none otherwise. */
  lemma ResolvesWhatIsNamed(prefix: string, candidates: seq<string>)
    requires AllIds(candidates) && !IsRecordId(Trim(prefix))
    ensures Resolves(Trim(prefix), Named(Trim(prefix), candidates), ResolvePrefix(prefix, candidates))
  {
    var input := Trim(prefix);
    assert FromString(input).Failure?;
    hide FromString, FromPrefix, Trim, Scan, Named, AllHexDigits, ToAsciiUpper, ToAsciiLower, IsRecordId;
    match SplitOnce(input, '-')
    case Some((kindPart, tailPart)) => ResolveWithHyphen(input, candidates, kindPart, tailPart);
    case None => ResolveWithoutHyphen(input, candidates);
  }

  // --- the errors --------------------------------------------------------------------------------------------------

  /** Only a kind is named: its tag in any case, with a bare hyphen, or without one if it is no hash either. */
  ghost predicate NamesOnlyKind(input: string, tag: string) {
    && (exists k: RecordKind :: k.Prefix() == tag)
    && (|| (ToAsciiUpper(input) == tag && !AllHexDigits(input))
        || (input != [] && input[|input| - 1] == '-' && ToAsciiUpper(input[..|input| - 1]) == tag))
  }

  /** A trimmed text does not end in whitespace, so nothing but whitespace behind a hyphen is nothing. */
  lemma BlankTail(prefix: string, kindPart: string, tailPart: string)
    requires Trim(prefix) == kindPart + "-" + tailPart
    ensures Trim(tailPart) == [] <==> tailPart == []
  {
    var a, b := TrimIs(prefix);
    var c, d := TrimIs(tailPart);
    hide IsWhitespace, Trim;
    if tailPart != [] {
      var input := kindPart + "-" + tailPart;
      assert input[|input| - 1] == tailPart[|tailPart| - 1];
    }
  }

  lemma UpperHasNoHyphen(s: string, k: RecordKind)
    requires ToAsciiUpper(s) == k.Prefix()
    ensures '-' !in s && s != []
  {
    PrefixIsUpper(k);
    forall i | 0 <= i < |s|
      ensures s[i] != '-'
    {
      assert ToAsciiUpper(s)[i] == AsciiUpper(s[i]);
      assert k.Prefix()[i] in k.Prefix();
    }
  }

  /** The errors of an input: nothing at all, a kind and no more, or nothing it resolves to. */
  lemma ResolveErrors(prefix: string, candidates: seq<string>)
    requires AllIds(candidates)
    ensures var input, res := Trim(prefix), ResolvePrefix(prefix, candidates);
            && (res == Failure(EmptyInput) <==> input == "")
            && (forall tag :: res == Failure(EmptyHexPrefix(tag)) <==> !IsRecordId(input) && NamesOnlyKind(input, tag))
            && (forall p :: res == Failure(Unknown(p)) ==> p == input)
            && (IsRecordId(input) ==> res == if input in candidates then Success(input) else Failure(Unknown(input)))
  {
    var input := Trim(prefix);
    assert !IsRecordId("");
    hide FromString, FromPrefix, Trim, AllHexDigits, ToAsciiUpper, Matching, NamesOnlyKind, IsRecordId;
    forall tag
      ensures ResolvePrefix(prefix, candidates) == Failure(EmptyHexPrefix(tag)) <==>
              !IsRecordId(input) && NamesOnlyKind(input, tag)
    {
      OnlyKindIsError(prefix, candidates, tag);
    }
  }

  lemma OnlyKindIsError(prefix: string, candidates: seq<string>, tag: string)
    requires AllIds(candidates)
    ensures ResolvePrefix(prefix, candidates) == Failure(EmptyHexPrefix(tag)) <==>
            !IsRecordId(Trim(prefix)) && NamesOnlyKind(Trim(prefix), tag)
  {
    hide FromString, FromPrefix, Trim, AllHexDigits, ToAsciiUpper, Matching, NamesOnlyKind;
    PrefixIsNotEmpty("");
    match SplitOnce(Trim(prefix), '-')
    case Some((kindPart, tailPart)) => OnlyKindWithHyphen(prefix, kindPart, tailPart, tag);
    case None => OnlyKindWithout(Trim(prefix), tag);
  }

  lemma PrefixIsNotEmpty(empty: string)
    requires empty == ""
    ensures FromPrefix(ToAsciiUpper(empty)) == None
  {
  }

  lemma PrefixIsKind(tag: string)
    ensures FromPrefix(tag).Some? <==> exists k: RecordKind :: k.Prefix() == tag
  {
    hide FromPrefix;
    forall k: RecordKind {
      PrefixRoundTrip(tag, k);
    }
    if FromPrefix(tag).Some? {
      PrefixRoundTrip(tag, FromPrefix(tag).value);
    }
  }

  lemma OnlyKindWithHyphen(prefix: string, kindPart: string, tailPart: string, tag: string)
    requires Trim(prefix) == kindPart + "-" + tailPart && '-' !in kindPart
    ensures NamesOnlyKind(Trim(prefix), tag) <==>
            tag == ToAsciiUpper(kindPart) && FromPrefix(tag).Some? && Trim(tailPart) == []
  {
    BlankTail(prefix, kindPart, tailPart);
    PrefixIsKind(tag);
    var input := kindPart + "-" + tailPart;
    hide FromPrefix, Trim, AllHexDigits, ToAsciiUpper;
    assert input[|kindPart|] == '-';
    if tailPart == [] {
      assert input[..|input| - 1] == kindPart;
    } else {
      assert input[..|input| - 1][|kindPart|] == '-';
    }
    if k: RecordKind :| k.Prefix() == tag {
      if ToAsciiUpper(input) == tag {
        UpperHasNoHyphen(input, k);
      }
      if tailPart != [] && ToAsciiUpper(input[..|input| - 1]) == tag {
        UpperHasNoHyphen(input[..|input| - 1], k);
      }
    }
  }

  lemma OnlyKindWithout(input: string, tag: string)
    requires '-' !in input
    ensures NamesOnlyKind(input, tag) <==>
            tag == ToAsciiUpper(input) && FromPrefix(tag).Some? && !AllHexDigits(input)
  {
    PrefixIsKind(tag);
    hide FromPrefix;
  }
}
