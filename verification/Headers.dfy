/** net/http header maps and the hop-by-hop policy (internal/outbound/outbound.go). */
module Headers {
  import opened Text
  import Verify

  type Fields = map<string, seq<string>>

  // ---------------------------------------------------------------- canonical names

  predicate IsTokenChar(c: char)
  {
    || 'a' <= c <= 'z' || 'A' <= c <= 'Z' || '0' <= c <= '9'
    || c in {'!', '#', '$', '%', '&', '\'', '*', '+', '-', '.', '^', '_', '`', '|', '~'}
  }

  predicate IsToken(k: string) { forall i | 0 <= i < |k| :: IsTokenChar(k[i]) }

  /** Upper case at the start and after each hyphen, lower case elsewhere. */
  function TitleChar(k: string, i: nat): char
    requires i < |k|
  {
    if i == 0 || k[i - 1] == '-' then UpperChar(k[i]) else LowerChar(k[i])
  }

  /** textproto.CanonicalMIMEHeaderKey: names that are not tokens are left alone. */
  function Canon(k: string): (c: string)
    ensures |c| == |k|
  {
    if IsToken(k) then seq(|k|, i requires 0 <= i < |k| => TitleChar(k, i)) else k
  }

  lemma CanonFolds(k: string)
    ensures EqualFold(Canon(k), k)
  {
    assert forall i | 0 <= i < |k| :: LowerChar(Canon(k)[i]) == LowerChar(k[i]);
  }

  lemma FoldedChars(a: string, b: string)
    requires EqualFold(a, b)
    ensures |a| == |b| && forall i | 0 <= i < |a| :: LowerChar(a[i]) == LowerChar(b[i])
  {
    assert |Lower(a)| == |a| && |Lower(b)| == |b|;
    forall i | 0 <= i < |a| ensures LowerChar(a[i]) == LowerChar(b[i]) {
      assert Lower(a)[i] == Lower(b)[i];
    }
  }

  lemma FoldedTokens(a: string, b: string)
    requires EqualFold(a, b) && IsToken(a)
    ensures IsToken(b)
  {
    FoldedChars(a, b);
    forall i | 0 <= i < |b| ensures IsTokenChar(b[i]) {
      assert IsTokenChar(a[i]) && LowerChar(a[i]) == LowerChar(b[i]);
    }
  }

  /** Canonicalisation picks one spelling per name. */
  lemma CanonUnique(a: string, b: string)
    requires EqualFold(a, b) && IsToken(a)
    ensures Canon(a) == Canon(b)
  {
    FoldedTokens(a, b);
    FoldedChars(a, b);
    forall i | 0 <= i < |a| ensures Canon(a)[i] == Canon(b)[i] {
      assert LowerChar(a[i]) == LowerChar(b[i]);
      if i > 0 { assert LowerChar(a[i - 1]) == LowerChar(b[i - 1]); }
    }
  }

  lemma CanonIdempotent(k: string)
    ensures Canon(Canon(k)) == Canon(k)
  {
    if IsToken(k) {
      CanonFolds(k);
      FoldedTokens(k, Canon(k));
      CanonUnique(k, Canon(k));
    }
  }

  ghost predicate Canonical(names: set<string>) { forall k | k in names :: Canon(k) == k }

  /** A name spelled canonically, as the names the program itself uses are. */
  predicate IsName(n: string) { IsToken(n) && Canon(n) == n }

  lemma OnlySpelling(k: string, n: string)
    requires IsName(n) && Canon(k) == k && EqualFold(k, n)
    ensures k == n
  {
    CanonUnique(n, k);
  }

  // ---------------------------------------------------------------- names word by word

  /** One part of a hyphenated name, capitalised. */
  predicate Word(w: string)
  {
    && w != "" && (forall i | 0 <= i < |w| :: IsTokenChar(w[i]) && w[i] != '-')
    && UpperChar(w[0]) == w[0] && forall i | 1 <= i < |w| :: LowerChar(w[i]) == w[i]
  }

  lemma WordIsName(w: string)
    requires Word(w)
    ensures IsName(w)
  {
    assert forall i | 0 <= i < |w| :: Canon(w)[i] == w[i];
  }

  lemma HyphenName(a: string, w: string)
    requires IsName(a) && Word(w)
    ensures IsName(a + "-" + w)
  {
    var n := a + "-" + w;
    forall i | 0 <= i < |n| ensures IsTokenChar(n[i]) && TitleChar(n, i) == n[i] {
      if i < |a| {
        assert n[i] == a[i] && Canon(a)[i] == TitleChar(a, i) && TitleChar(a, i) == TitleChar(n, i);
      } else if i > |a| {
        assert n[i] == w[i - |a| - 1];
      }
    }
    assert forall i | 0 <= i < |n| :: Canon(n)[i] == n[i];
  }

  lemma TwoWords(a: string, b: string)
    requires Word(a) && Word(b)
    ensures IsName(a + "-" + b)
  {
    WordIsName(a);
    HyphenName(a, b);
  }

  lemma ThreeWords(a: string, b: string, c: string)
    requires Word(a) && Word(b) && Word(c)
    ensures IsName(a + "-" + b + "-" + c)
  {
    TwoWords(a, b);
    HyphenName(a + "-" + b, c);
  }

  lemma ConnectionWord()
    ensures Word("Connection")
  {
  }

  // ---------------------------------------------------------------- header operations

  function GetField(h: Fields, name: string): string
  {
    if Canon(name) in h && h[Canon(name)] != [] then h[Canon(name)][0] else ""
  }

  function Values(h: Fields, k: string): seq<string> { if k in h then h[k] else [] }

  function SetField(h: Fields, name: string, v: string): Fields { h[Canon(name) := [v]] }

  function AddField(h: Fields, name: string, v: string): Fields
  {
    h[Canon(name) := Values(h, Canon(name)) + [v]]
  }

  function DelField(h: Fields, name: string): Fields { h - {Canon(name)} }

  /** lowerHeaders: the values of each name joined by a comma and a space. */
  function Flatten(h: Fields): Verify.Flat { map k | k in h :: Join(h[k], ", ") }

  method LowerHeaders(h: Fields) returns (m: Verify.Flat)
    ensures m == Flatten(h)
  {
    m := map[];
    var todo := h.Keys;
    while todo != {}
      invariant todo <= h.Keys
      invariant m == map k | k in h && k !in todo :: Join(h[k], ", ")
      decreases |todo|
    {
      var k :| k in todo;
      todo := todo - {k};
      m := m[k := Join(h[k], ", ")];
    }
  }

  // ---------------------------------------------------------------- hop-by-hop fields

  const FIXED_HOPS: set<string> :=
    {"connection", "keep-alive", "proxy-authenticate", "proxy-authorization",
     "te", "trailer", "transfer-encoding", "upgrade"}

  function Tokens(value: string): set<string>
  {
    set v | v in Split(value, ',') && TrimSpace(v) != "" :: Lower(TrimSpace(v))
  }

  /** The fixed names plus those the first Connection value lists (section 7.6.1 of RFC 9110). */
  function HopNames(h: Fields): set<string>
  {
    FIXED_HOPS + Tokens(GetField(h, "Connection"))
  }

  /** The keys deleted on account of `names`. */
  function Deleted(names: set<string>, hops: set<string>): set<string>
  {
    set k | k in names && Lower(k) in hops :: Canon(k)
  }

  function Hops(h: Fields): set<string> { Deleted(h.Keys, HopNames(h)) }

  lemma DeletedStep(names: set<string>, hops: set<string>, k: string)
    ensures Deleted(names + {k}, hops)
            == Deleted(names, hops) + (if Lower(k) in hops then {Canon(k)} else {})
  {
  }

  function Strip(h: Fields): Fields { h - Hops(h) - {Canon("Connection")} }

  /** A request's header, changed in place. */
  class Header {
    var fields: Fields

    constructor ()
      ensures fields == map[]
    {
      fields := map[];
    }

    method Set(name: string, v: string)
      modifies this
      ensures fields == SetField(old(fields), name, v)
    {
      fields := fields[Canon(name) := [v]];
    }

    method Add(name: string, v: string)
      modifies this
      ensures fields == AddField(old(fields), name, v)
    {
      var k := Canon(name);
      fields := fields[k := (if k in fields then fields[k] else []) + [v]];
    }

    method Del(name: string)
      modifies this
      ensures fields == DelField(old(fields), name)
    {
      fields := fields - {Canon(name)};
    }

    method HopHeaders() returns (out: set<string>)
      ensures out == HopNames(fields)
    {
      out := FIXED_HOPS;
      var parts := Split(GetField(fields, "Connection"), ',');
      for i := 0 to |parts|
        invariant out == FIXED_HOPS + set v | v in parts[..i] && TrimSpace(v) != "" :: Lower(TrimSpace(v))
      {
        assert parts[..i + 1] == parts[..i] + [parts[i]];
        var v := TrimSpace(parts[i]);
        if v != "" {
          out := out + {Lower(v)};
        }
      }
      assert parts[..|parts|] == parts;
    }

    /** Names are visited in any order; deleting while ranging is what the program does. */
    method StripHopByHop()
      modifies this
      ensures fields == Strip(old(fields))
    {
      ghost var before := fields;
      var hops := HopHeaders();
      var todo := fields.Keys;
      ghost var done: set<string> := {};
      while todo != {}
        invariant todo + done == before.Keys
        invariant fields == before - Deleted(done, hops)
        decreases |todo|
      {
        var k :| k in todo;
        MoveName(todo, done, k);
        todo := todo - {k};
        DropMore(before, done, hops, k);
        done := done + {k};
        if Lower(k) in hops {
          Del(k);
        }
      }
      assert done == before.Keys;
      Del("Connection");
    }
  }

  lemma MoveName(todo: set<string>, done: set<string>, k: string)
    requires k in todo
    ensures (todo - {k}) + (done + {k}) == todo + done
  {
  }

  lemma DropMore(h: Fields, done: set<string>, hops: set<string>, k: string)
    ensures h - Deleted(done + {k}, hops)
            == (if Lower(k) in hops then DelField(h - Deleted(done, hops), k) else h - Deleted(done, hops))
  {
    DeletedStep(done, hops, k);
    MinusMinus(h, Deleted(done, hops), {Canon(k)});
  }

  lemma MinusMinus(h: Fields, a: set<string>, b: set<string>)
    ensures h - a - b == h - (a + b)
  {
  }

  // ---------------------------------------------------------------- what stripping means

  lemma ConnectionName()
    ensures IsName("Connection") && Lower("Connection") == "connection"
  {
    ConnectionWord();
    WordIsName("Connection");
  }

  /** On canonical names exactly the hop-by-hop fields go; the others keep their values. */
  lemma StripExact(h: Fields)
    requires Canonical(h.Keys)
    ensures forall k :: k in Strip(h) <==> k in h && Lower(k) !in HopNames(h)
    ensures forall k | k in Strip(h) :: Strip(h)[k] == h[k]
    ensures Canonical(Strip(h).Keys)
  {
    ConnectionName();
    assert forall k | k in Hops(h) :: Lower(k) in HopNames(h);
  }

  lemma ConnectionGone(h: Fields)
    ensures GetField(Strip(h), "Connection") == ""
  {
  }

  lemma NoConnectionTokens()
    ensures Tokens("") == {}
  {
    SplitNone("", ',');
  }

  /** Stripping twice is stripping once. */
  lemma StripIdempotent(h: Fields)
    requires Canonical(h.Keys)
    ensures Strip(Strip(h)) == Strip(h)
  {
    StripExact(h);
    StripExact(Strip(h));
    ConnectionGone(h);
    NoConnectionTokens();
    assert HopNames(Strip(h)) == FIXED_HOPS;
    assert FIXED_HOPS <= HopNames(h);
  }

  /** A canonical map holds at most one spelling of a name, so lookup is exact. */
  lemma LookupCanonical(h: Verify.Flat, n: string)
    requires Canonical(h.Keys) && IsName(n)
    ensures Verify.Lookup(h, n) == (if n in h then h[n] else "")
  {
    forall k | k in h && EqualFold(k, n) ensures k == n { OnlySpelling(k, n); }
    assert EqualFold(n, n);
  }

  lemma CanonicalIsFoldUnique(h: Verify.Flat)
    requires Canonical(h.Keys) && forall k | k in h :: IsToken(k)
    ensures Verify.FoldUnique(h)
  {
    forall a, b | a in h && b in h && EqualFold(a, b) ensures a == b {
      OnlySpelling(b, a);
    }
  }

  // ---------------------------------------------------------------- what the functions mean

  /** The token characters of section 5.6.2 of RFC 9110. */
  lemma TokenCharIff(c: char)
    ensures IsTokenChar(c) <==>
              var n := c as int;
              || 48 <= n <= 57 || 65 <= n <= 90 || 97 <= n <= 122
              || n in {33, 35, 36, 37, 38, 39, 42, 43, 45, 46, 94, 95, 96, 124, 126}
  {
  }

  /** A name that is no token keeps its spelling; a token changes only the case of letters:
      capital at the start and after a hyphen, small elsewhere. */
  lemma CanonAt(k: string, i: nat)
    requires i < |k|
    ensures !IsToken(k) ==> Canon(k) == k
    ensures var n, first := k[i] as int, i == 0 || k[i - 1] as int == 45;
            IsToken(k) ==>
              Canon(k)[i] as int == if first && 97 <= n <= 122 then n - 32
                                    else if !first && 65 <= n <= 90 then n + 32 else n
  {
  }

  /** One value stands as it is; more are joined by a comma and a space, in order. */
  lemma FlattenMeans(h: Fields, k: string)
    requires k in h && h[k] != []
    ensures k in Flatten(h)
    ensures |h[k]| == 1 ==> Flatten(h)[k] == h[k][0]
    ensures |h[k]| > 1 ==> Flatten(h)[k] == h[k][0] + ", " + Flatten(h[k := h[k][1..]])[k]
  {
    assert h[k] == [h[k][0]] + h[k][1..];
    JoinMore(h[k][0], h[k][1..], ", ");
  }

  /** v is a, one of its comma-separated parts, and b. */
  predicate CommaPart(v: string, a: string, part: string, b: string)
  {
    && v == a + part + b && ',' !in part
    && (a == "" || a[|a| - 1] == ',') && (b == "" || b[0] == ',')
  }

  lemma FirstPart(part: string, b: string)
    requires ',' !in part && (b == "" || b[0] == ',')
    ensures part in Split(part + b, ',')
  {
    if b == "" {
      assert part + b == part;
      SplitNone(part, ',');
    } else {
      assert part + b == part + [','] + b[1..];
      SplitFirst(part, ',', b[1..]);
    }
  }

  /** What ends in a comma has a first one. */
  lemma FirstComma(a: string) returns (x: string, y: string)
    requires a != "" && a[|a| - 1] == ','
    ensures a == x + [','] + y && ',' !in x && (y == "" || y[|y| - 1] == ',')
  {
    var n := Find(a, ',');
    assert a[..|a|] == a && ',' in a;
    x, y := a[..n], a[n + 1..];
  }

  lemma TailPart(x: string, rest: string, part: string)
    requires ',' !in x && part in Split(rest, ',')
    ensures part in Split(x + [','] + rest, ',')
  {
    SplitFirst(x, ',', rest);
  }

  lemma Regroup(x: string, y: string, part: string, b: string)
    ensures (x + [','] + y) + part + b == x + [','] + (y + part + b)
  {
  }

  lemma {:induction false} PartsAreSplit(a: string, part: string, b: string)
    requires CommaPart(a + part + b, a, part, b)
    ensures part in Split(a + part + b, ',')
    decreases |a|
  {
    if a == "" {
      assert a + part + b == part + b;
      FirstPart(part, b);
    } else {
      var x, y := FirstComma(a);
      PartsAreSplit(y, part, b);
      TailPart(x, y + part + b, part);
      Regroup(x, y, part, b);
    }
  }

  lemma {:induction false} SplitIsParts(v: string, part: string) returns (a: string, b: string)
    requires part in Split(v, ',')
    ensures CommaPart(v, a, part, b)
    decreases |v|
  {
    var n := Find(v, ',');
    if n == |v| {
      a, b := "", "";
      assert v == a + part + b && v[..n] == v;
    } else if part == v[..n] {
      a, b := "", v[n..];
      assert v == a + part + b;
    } else {
      a, b := SplitIsParts(v[n + 1..], part);
      Behind(v, n, a, part, b);
      a := v[..n + 1] + a;
    }
  }

  lemma Behind(v: string, n: nat, a: string, part: string, b: string)
    requires n < |v| && v[n] == ',' && CommaPart(v[n + 1..], a, part, b)
    ensures CommaPart(v, v[..n + 1] + a, part, b)
  {
    assert v == v[..n + 1] + (a + part + b);
    assert v[..n + 1] + a + part + b == v[..n + 1] + (a + part + b);
  }

  /** A Connection value names its comma-separated parts, trimmed and in any case. */
  ghost predicate Nominates(v: string, name: string)
  {
    exists a, part, b ::
      CommaPart(v, a, part, b) && TrimSpace(part) != "" && EqualFold(TrimSpace(part), name)
  }

  lemma TokensIff(v: string, name: string)
    ensures Lower(name) in Tokens(v) <==> Nominates(v, name)
  {
    if Lower(name) in Tokens(v) {
      var part :| part in Split(v, ',') && TrimSpace(part) != "" && Lower(TrimSpace(part)) == Lower(name);
      var a, b := SplitIsParts(v, part);
    } else if a, part, b :| CommaPart(v, a, part, b) && TrimSpace(part) != "" && EqualFold(TrimSpace(part), name) {
      PartsAreSplit(a, part, b);
    }
  }

  /** Stripping, name by name: gone are the eight hop-by-hop fields and what the first
      Connection value names; everything else stays. */
  lemma StripMeans(h: Fields, k: string)
    requires Canonical(h.Keys) && k in h
    ensures k in Strip(h) <==>
              && Lower(k) !in {"connection", "keep-alive", "proxy-authenticate", "proxy-authorization",
                               "te", "trailer", "transfer-encoding", "upgrade"}
              && !Nominates(if "Connection" in h && h["Connection"] != [] then h["Connection"][0] else "", k)
    ensures k in Strip(h) ==> Strip(h)[k] == h[k]
  {
    StripExact(h);
    ConnectionName();
    TokensIff(GetField(h, "Connection"), k);
  }
}
