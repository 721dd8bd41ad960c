/** The parts of Go's strings, strconv and net/http string handling the model needs.
    A string is a sequence of bytes held in chars; case and white space are ASCII. */
module Text {

  datatype Option<+T> = None | Some(value: T)

  // ---------------------------------------------------------------- case

  function LowerChar(c: char): char
  {
    if 'A' <= c <= 'Z' then c + ('a' - 'A') else c
  }

  function UpperChar(c: char): char
  {
    if 'a' <= c <= 'z' then c - ('a' - 'A') else c
  }

  function Lower(s: string): string
  {
    seq(|s|, i requires 0 <= i < |s| => LowerChar(s[i]))
  }

  predicate EqualFold(a: string, b: string) { Lower(a) == Lower(b) }

  // ---------------------------------------------------------------- trimming

  predicate IsSpace(c: char) { c in {' ', '\t', '\n', '\r', 11 as char, 12 as char} }

  function TrimLeft(s: string): string
  {
    if s != "" && IsSpace(s[0]) then TrimLeft(s[1..]) else s
  }

  function TrimRight(s: string): string
  {
    if s != "" && IsSpace(s[|s| - 1]) then TrimRight(s[..|s| - 1]) else s
  }

  function TrimSpace(s: string): string { TrimRight(TrimLeft(s)) }

  predicate NoSpace(s: string) { forall c | c in s :: !IsSpace(c) }

  lemma TrimNothing(s: string)
    requires NoSpace(s)
    ensures TrimSpace(s) == s
  {
    if s != "" {
      assert s[0] in s && s[|s| - 1] in s;
    }
  }

  function TrimPrefix(s: string, p: string): string
  {
    if p <= s then s[|p|..] else s
  }

  // ---------------------------------------------------------------- splitting

  /** The first index of c in s, or |s|. */
  function Find(s: string, c: char): (i: nat)
    ensures i <= |s| && c !in s[..i] && (i < |s| ==> s[i] == c)
  {
    if s == "" || s[0] == c then 0
    else
      var i := 1 + Find(s[1..], c);
      assert s[..i] == [s[0]] + s[1..][..i - 1];
      i
  }

  lemma {:induction false} FindAt(a: string, c: char, b: string)
    requires c !in a
    ensures Find(a + [c] + b, c) == |a|
  {
    if a != "" {
      assert a[0] in a;
      assert (a + [c] + b)[1..] == a[1..] + [c] + b;
      FindAt(a[1..], c, b);
    }
  }

  lemma {:induction false} FindNone(s: string, c: char)
    requires c !in s
    ensures Find(s, c) == |s|
  {
    if s != "" {
      assert s[0] in s;
      assert forall d | d in s[1..] :: d in s;
      FindNone(s[1..], c);
    }
  }

  /** strings.SplitN(s, sep, 2), or None when sep does not occur. */
  function Cut(s: string, c: char): Option<(string, string)>
  {
    var i := Find(s, c);
    if i == |s| then None else Some((s[..i], s[i + 1..]))
  }

  lemma CutAt(a: string, c: char, b: string)
    requires c !in a
    ensures Cut(a + [c] + b, c) == Some((a, b))
  {
    FindAt(a, c, b);
    assert (a + [c] + b)[..|a|] == a;
    assert (a + [c] + b)[|a| + 1..] == b;
  }

  function Split(s: string, c: char): (parts: seq<string>)
    ensures parts != []
    decreases |s|
  {
    var i := Find(s, c);
    if i == |s| then [s] else [s[..i]] + Split(s[i + 1..], c)
  }

  lemma SplitNone(s: string, c: char)
    requires c !in s
    ensures Split(s, c) == [s]
  {
    FindNone(s, c);
  }

  lemma SplitFirst(a: string, c: char, b: string)
    requires c !in a
    ensures Split(a + [c] + b, c) == [a] + Split(b, c)
  {
    CutAt(a, c, b);
    FindAt(a, c, b);
    assert (a + [c] + b)[..|a|] == a;
    assert (a + [c] + b)[|a| + 1..] == b;
  }

  function Join(parts: seq<string>, sep: string): string
  {
    if parts == [] then "" else if |parts| == 1 then parts[0]
    else parts[0] + sep + Join(parts[1..], sep)
  }

  function WordLength(s: string): (n: nat)
    ensures n <= |s|
  {
    if s == "" || IsSpace(s[0]) then 0 else 1 + WordLength(s[1..])
  }

  /** strings.Fields: the maximal runs of non-space characters. */
  function Fields(s: string): seq<string>
    decreases |s|
  {
    if s == "" then []
    else if IsSpace(s[0]) then Fields(s[1..])
    else var n := WordLength(s); [s[..n]] + Fields(s[n..])
  }

  lemma {:induction false} OneWord(s: string)
    requires NoSpace(s)
    ensures WordLength(s) == |s|
  {
    if s != "" {
      assert s[0] in s;
      assert forall c | c in s[1..] :: c in s;
      OneWord(s[1..]);
    }
  }

  lemma OneField(s: string)
    requires s != "" && NoSpace(s)
    ensures Fields(s) == [s]
  {
    OneWord(s);
    assert s[0] in s;
    assert s[..|s|] == s && s[|s|..] == "";
  }

  // ---------------------------------------------------------------- decimal integers

  const INT64_MAX: int := 0x7FFF_FFFF_FFFF_FFFF
  const INT64_MIN: int := -0x8000_0000_0000_0000
  const TWO64: int := 0x1_0000_0000_0000_0000

  predicate IsInt64(i: int) { INT64_MIN <= i <= INT64_MAX }

  /** Two's-complement wrap-around to 64 bits. */
  function Wrap64(i: int): (r: int)
    ensures IsInt64(r)
  {
    var m := i % TWO64;
    if m > INT64_MAX then m - TWO64 else m
  }

  lemma WrapExactIff(i: int)
    ensures Wrap64(i) == i <==> IsInt64(i)
    ensures -TWO64 <= i < INT64_MIN ==> Wrap64(i) == i + TWO64
  {
  }

  predicate IsDigit(c: char) { '0' <= c <= '9' }

  function DigitChar(d: int): char
    requires 0 <= d <= 9
  {
    '0' + (d as char)
  }

  function DigitValue(c: char): int
    requires IsDigit(c)
  {
    (c - '0') as int
  }

  predicate AllDigits(s: string) { forall c | c in s :: IsDigit(c) }

  function PrintNat(n: nat): (s: string)
    ensures s != "" && AllDigits(s)
  {
    if n < 10 then [DigitChar(n)] else PrintNat(n / 10) + [DigitChar(n % 10)]
  }

  function PrintInt(i: int): string
  {
    if i < 0 then "-" + PrintNat(-i) else PrintNat(i)
  }

  function ParseNat(s: string): nat
    requires AllDigits(s)
  {
    if s == "" then 0
    else
      assert s[|s| - 1] in s;
      assert forall c | c in s[..|s| - 1] :: c in s;
      10 * ParseNat(s[..|s| - 1]) + DigitValue(s[|s| - 1])
  }

  /** strconv.ParseInt(s, 10, 64): optional sign, at least one digit, in range. */
  function ParseInt(s: string): Option<int>
  {
    var neg := s != "" && s[0] == '-';
    var digits := if neg || (s != "" && s[0] == '+') then s[1..] else s;
    if digits == "" || !AllDigits(digits) then None
    else
      var v: int := if neg then -(ParseNat(digits) as int) else ParseNat(digits);
      if IsInt64(v) then Some(v) else None
  }

  lemma {:induction false} ParsePrintNat(n: nat)
    ensures ParseNat(PrintNat(n)) == n
  {
    if n >= 10 {
      ParsePrintNat(n / 10);
      assert PrintNat(n)[..|PrintNat(n)| - 1] == PrintNat(n / 10);
    } else {
      assert PrintNat(n)[..0] == "";
    }
  }

  /** Printing and parsing a 64-bit integer is the identity. */
  lemma ParsePrintInt(i: int)
    requires IsInt64(i)
    ensures ParseInt(PrintInt(i)) == Some(i)
  {
    if i < 0 {
      ParsePrintNat(-i);
      assert PrintInt(i)[1..] == PrintNat(-i);
    } else {
      ParsePrintNat(i);
      assert PrintInt(i)[0] in PrintNat(i);
    }
  }

  lemma PrintIntAlphabet(i: int)
    ensures forall c | c in PrintInt(i) :: IsDigit(c) || c == '-'
    ensures PrintInt(i) != ""
  {
  }

  // ---------------------------------------------------------------- byte order

  /** Lexicographic order on bytes: SQLite's BINARY collation. */
  predicate Less(a: string, b: string)
  {
    b != "" && (a == "" || a[0] < b[0] || (a[0] == b[0] && Less(a[1..], b[1..])))
  }

  lemma {:induction false} LessTotal(a: string, b: string)
    ensures Less(a, b) || a == b || Less(b, a)
    ensures !(Less(a, b) && Less(b, a)) && !Less(a, a)
  {
    if a != "" && b != "" && a[0] == b[0] {
      LessTotal(a[1..], b[1..]);
    }
    if a != "" {
      LessTotal(a[1..], a[1..]);
    }
  }

  lemma {:induction false} LessTransitive(a: string, b: string, c: string)
    requires Less(a, b) && Less(b, c)
    ensures Less(a, c)
  {
    if a != "" && a[0] == b[0] == c[0] {
      LessTransitive(a[1..], b[1..], c[1..]);
    }
  }

  /** Strings that start with equally long fields compare field by field. */
  lemma {:induction false} LessFields(a: string, x: string, b: string, y: string)
    requires |a| == |b|
    ensures Less(a + x, b + y) <==> Less(a, b) || (a == b && Less(x, y))
  {
    if a == "" {
      assert a + x == x && b + y == y;
    } else {
      assert (a + x)[1..] == a[1..] + x && (b + y)[1..] == b[1..] + y;
      LessFields(a[1..], x, b[1..], y);
    }
  }

  // ---------------------------------------------------------------- what the functions mean

  /** Case folding, character by character. */
  lemma EqualFoldIff(a: string, b: string)
    ensures EqualFold(a, b) <==>
              && |a| == |b|
              && forall i | 0 <= i < |a| ::
                   || a[i] == b[i]
                   || (65 <= a[i] as int <= 90 && b[i] as int == a[i] as int + 32)
                   || (65 <= b[i] as int <= 90 && a[i] as int == b[i] as int + 32)
  {
    if EqualFold(a, b) {
      assert |Lower(a)| == |a| && |Lower(b)| == |b|;
      forall i | 0 <= i < |a|
        ensures || a[i] == b[i]
                || (65 <= a[i] as int <= 90 && b[i] as int == a[i] as int + 32)
                || (65 <= b[i] as int <= 90 && a[i] as int == b[i] as int + 32)
      {
        assert Lower(a)[i] == Lower(b)[i];
      }
    }
  }

  /** Only capital letters move, by 32. */
  lemma LowerAt(s: string, i: nat)
    requires i < |s|
    ensures |Lower(s)| == |s|
    ensures Lower(s)[i] as int == (if 65 <= s[i] as int <= 90 then s[i] as int + 32 else s[i] as int)
  {
  }

  predicate Blank(c: char) { c as int == 32 || 9 <= c as int <= 13 }

  lemma {:induction false} TrimLeftMeans(lead: string, rest: string)
    requires (forall c | c in lead :: Blank(c)) && (rest == "" || !Blank(rest[0]))
    ensures TrimLeft(lead + rest) == rest
  {
    if lead == "" {
      assert lead + rest == rest;
    } else {
      assert lead[0] in lead && (lead + rest)[1..] == lead[1..] + rest;
      TrimLeftMeans(lead[1..], rest);
    }
  }

  lemma {:induction false} TrimRightMeans(rest: string, trail: string)
    requires (forall c | c in trail :: Blank(c)) && (rest == "" || !Blank(rest[|rest| - 1]))
    ensures TrimRight(rest + trail) == rest
  {
    if trail == "" {
      assert rest + trail == rest;
    } else {
      var n := |trail| - 1;
      assert trail[n] in trail && (rest + trail)[..|rest| + n] == rest + trail[..n];
      TrimRightMeans(rest, trail[..n]);
    }
  }

  /** TrimSpace removes exactly the blanks around. */
  lemma TrimSpaceMeans(lead: string, core: string, trail: string)
    requires forall c | c in lead || c in trail :: Blank(c)
    requires core == "" || (!Blank(core[0]) && !Blank(core[|core| - 1]))
    ensures TrimSpace(lead + core + trail) == core
  {
    if core == "" {
      assert lead + core + trail == (lead + trail) + "";
      TrimLeftMeans(lead + trail, "");
    } else {
      assert lead + core + trail == lead + (core + trail);
      TrimLeftMeans(lead, core + trail);
      TrimRightMeans(core, trail);
    }
  }

  /** Joining what a string was split into gives it back, and no part holds the separator. */
  lemma {:induction false} SplitMeans(s: string, c: char)
    ensures Split(s, c) != [] && Join(Split(s, c), [c]) == s
    ensures forall part | part in Split(s, c) :: c !in part
    decreases |s|
  {
    var i := Find(s, c);
    if i < |s| {
      SplitMeans(s[i + 1..], c);
      JoinMore(s[..i], Split(s[i + 1..], c), [c]);
      assert s == s[..i] + [c] + s[i + 1..];
    } else {
      assert s[..i] == s;
    }
  }

  lemma JoinMore(first: string, more: seq<string>, sep: string)
    ensures Join([first], sep) == first
    ensures more != [] ==> Join([first] + more, sep) == first + sep + Join(more, sep)
  {
    assert ([first] + more)[1..] == more;
  }

  /** Fields drops blanks and keeps the words between them. */
  lemma FieldsMeans(word: string, c: char, rest: string)
    requires Blank(c) && word != "" && forall d | d in word :: !Blank(d)
    ensures Fields("") == [] && Fields([c] + rest) == Fields(rest)
    ensures Fields(word) == [word] && Fields(word + [c] + rest) == [word] + Fields(rest)
  {
    assert ([c] + rest)[1..] == rest;
    OneField(word);
    var s := word + [c] + rest;
    WordEnds(word, [c] + rest);
    assert s == word + ([c] + rest) && word[0] in word;
    assert s[..|word|] == word && s[|word|..] == [c] + rest;
  }

  lemma {:induction false} WordEnds(word: string, rest: string)
    requires (forall d | d in word :: !Blank(d)) && (rest == "" || Blank(rest[0]))
    ensures WordLength(word + rest) == |word|
  {
    if word == "" {
      assert word + rest == rest;
    } else {
      assert word[0] in word && (word + rest)[1..] == word[1..] + rest;
      assert forall d | d in word[1..] :: d in word;
      WordEnds(word[1..], rest);
    }
  }

  function Tens(n: nat): nat { if n == 0 then 1 else 10 * Tens(n - 1) }

  predicate DecimalDigits(s: string) { forall i | 0 <= i < |s| :: 48 <= s[i] as int <= 57 }

  /** The number a digit string writes, most significant digit first. */
  function PlaceValue(s: string): nat
    requires DecimalDigits(s)
  {
    if s == "" then 0 else (s[0] as int - 48) * Tens(|s| - 1) + PlaceValue(s[1..])
  }

  lemma {:induction false} PlaceValueLast(s: string, c: char)
    requires DecimalDigits(s + [c])
    ensures DecimalDigits(s) && PlaceValue(s + [c]) == 10 * PlaceValue(s) + (c as int - 48)
  {
    assert forall i | 0 <= i < |s| :: (s + [c])[i] == s[i];
    assert (s + [c])[|s|] == c;
    if s == "" {
      assert s + [c] == [c] && Tens(0) == 1;
    } else {
      var d := s[0] as int - 48;
      assert (s + [c])[1..] == s[1..] + [c];
      PlaceValueLast(s[1..], c);
      TimesTens(d, |s| - 1);
      assert PlaceValue(s + [c]) == d * Tens(|s|) + PlaceValue(s[1..] + [c]);
    }
  }

  lemma TimesTens(d: int, n: nat)
    ensures d * Tens(n + 1) == 10 * (d * Tens(n))
  {
    assert Tens(n + 1) == 10 * Tens(n);
  }

  lemma {:induction false} ParseNatMeans(s: string)
    requires DecimalDigits(s)
    ensures AllDigits(s) && ParseNat(s) == PlaceValue(s)
  {
    if s != "" {
      var n := |s| - 1;
      assert s == s[..n] + [s[n]];
      PlaceValueLast(s[..n], s[n]);
      ParseNatMeans(s[..n]);
    }
  }

  /** The prefix goes once, if it is there. */
  lemma TrimPrefixMeans(s: string, p: string)
    ensures (forall t | s == p + t :: TrimPrefix(s, p) == t) && ((forall t :: s != p + t) ==> TrimPrefix(s, p) == s)
  {
    if p <= s { assert s == p + s[|p|..]; }
    forall t | s == p + t ensures TrimPrefix(s, p) == t { assert s[|p|..] == t; }
  }

  predicate IsSign(sign: string) { sign in {"", "+", "-"} }

  /** ParseInt reads an optional sign and decimal digits, and refuses what int64 cannot hold. */
  lemma ParseIntMeans(sign: string, digits: string)
    requires IsSign(sign) && digits != "" && DecimalDigits(digits)
    ensures var v: int := if sign == "-" then -(PlaceValue(digits) as int) else PlaceValue(digits);
            ParseInt(sign + digits)
            == if -0x8000_0000_0000_0000 <= v <= 0x7FFF_FFFF_FFFF_FFFF then Some(v) else None
  {
    ParseNatMeans(digits);
    var s := sign + digits;
    if sign == "" {
      assert s == digits && 48 <= s[0] as int <= 57;
    } else {
      assert s[1..] == digits && s[0] == sign[0];
    }
  }

  lemma ParseIntForm(s: string) returns (sign: string, digits: string)
    requires ParseInt(s).Some?
    ensures IsSign(sign) && digits != "" && DecimalDigits(digits) && s == sign + digits
  {
    var signed := s != "" && (s[0] == '-' || s[0] == '+');
    sign, digits := if signed then [s[0]] else "", if signed then s[1..] else s;
    forall i | 0 <= i < |digits| ensures 48 <= digits[i] as int <= 57 {
      assert digits[i] in digits;
    }
  }

  /** And nothing else. */
  lemma ParseIntRefuses(s: string)
    requires forall sign, digits | IsSign(sign) && digits != "" && DecimalDigits(digits) :: s != sign + digits
    ensures ParseInt(s).None?
  {
    if ParseInt(s).Some? {
      var sign, digits := ParseIntForm(s);
    }
  }

  /** The decimal text of a number is the one without leading zeros. */
  lemma {:induction false} PrintNatIs(d: string)
    requires d != "" && DecimalDigits(d) && (|d| == 1 || d[0] != '0')
    ensures PrintNat(PlaceValue(d)) == d
  {
    var n := |d| - 1;
    assert d == d[..n] + [d[n]];
    PlaceValueLast(d[..n], d[n]);
    if n == 0 {
      assert d[..n] == "" && PlaceValue("") == 0;
    } else {
      PlaceValuePositive(d[..n]);
      PrintNatIs(d[..n]);
      assert PlaceValue(d) / 10 == PlaceValue(d[..n]) && PlaceValue(d) % 10 == d[n] as int - 48;
    }
  }

  lemma {:induction false} PlaceValuePositive(d: string)
    requires d != "" && DecimalDigits(d) && d[0] != '0'
    ensures PlaceValue(d) >= 1
  {
    TensPositive(|d| - 1);
    assert (d[0] as int - 48) * Tens(|d| - 1) >= 1;
  }

  lemma {:induction false} TensPositive(n: nat)
    ensures Tens(n) >= 1
  {
    if n > 0 { TensPositive(n - 1); }
  }

  /** Byte order: the first difference decides, and a proper prefix comes first. */
  lemma {:induction false} LessIff(a: string, b: string)
    ensures Less(a, b) <==>
              || (|a| < |b| && a == b[..|a|])
              || exists i | 0 <= i < |a| && i < |b| :: a[..i] == b[..i] && a[i] < b[i]
  {
    if a != "" && b != "" {
      LessIff(a[1..], b[1..]);
      if a[0] == b[0] {
        assert |a| <= |b| ==> (a == b[..|a|] <==> a[1..] == b[1..][..|a| - 1]) by {
          assert a == [a[0]] + a[1..];
          if |a| <= |b| { assert b[..|a|] == [b[0]] + b[1..][..|a| - 1]; }
        }
        if i :| 0 <= i < |a| && i < |b| && a[..i] == b[..i] && a[i] < b[i] {
          assert i > 0;
          assert a[1..][..i - 1] == a[..i][1..] && b[1..][..i - 1] == b[..i][1..];
          assert a[1..][i - 1] < b[1..][i - 1];
        }
        if j :| 0 <= j < |a[1..]| && j < |b[1..]| && a[1..][..j] == b[1..][..j] && a[1..][j] < b[1..][j] {
          assert a[..j + 1] == [a[0]] + a[1..][..j] && b[..j + 1] == [b[0]] + b[1..][..j];
          assert a[j + 1] < b[j + 1];
        }
      } else if a[0] < b[0] {
        assert a[..0] == b[..0];
      } else {
        forall i | 0 <= i < |a| && i < |b| ensures !(a[..i] == b[..i] && a[i] < b[i]) {
          if i > 0 { assert a[..i][0] != b[..i][0]; }
        }
        if |a| <= |b| { assert b[..|a|][0] != a[0]; }
      }
    }
  }

  /** Wrapping keeps the value modulo 2^64 and lands in int64. */
  lemma WrapMeans(i: int)
    ensures -9223372036854775808 <= Wrap64(i) <= 9223372036854775807
    ensures (Wrap64(i) - i) % 18446744073709551616 == 0
  {
    var q := i / TWO64;
    assert i % TWO64 == i - q * TWO64;
  }
}
