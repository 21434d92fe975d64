/** The few Python string operations the header parser relies on:
    str.strip(), str.replace(c, ""), str.split(sep), str.startswith,
    str.isdigit and int(), stated over Dafny strings. */
module Text {

  /** One character that Python's str.isspace() accepts, i.e. one that
      str.strip() without arguments removes. */
  predicate IsSpace(c: char) {
    || c == ' '
    || ('\t' <= c <= '\r')
    || ('\U{1C}' <= c <= '\U{1F}')
    || c == '\U{85}' || c == '\U{A0}' || c == '\U{1680}'
    || ('\U{2000}' <= c <= '\U{200A}')
    || c == '\U{2028}' || c == '\U{2029}' || c == '\U{202F}'
    || c == '\U{205F}' || c == '\U{3000}'
  }

  predicate AllSpace(s: string) {
    forall k :: 0 <= k < |s| ==> IsSpace(s[k])
  }

  /** The number of whitespace characters at the start of s. */
  function LeadingSpace(s: string): (n: nat)
    ensures n <= |s|
    ensures forall m :: 0 <= m < n ==> IsSpace(s[m])
    ensures n < |s| ==> !IsSpace(s[n])
  {
    if s == [] || !IsSpace(s[0]) then 0 else 1 + LeadingSpace(s[1..])
  }

  /** The number of whitespace characters at the end of s. */
  function TrailingSpace(s: string): (n: nat)
    ensures n <= |s|
    ensures forall m :: |s| - n <= m < |s| ==> IsSpace(s[m])
    ensures n < |s| ==> !IsSpace(s[|s| - 1 - n])
  {
    if s == [] || !IsSpace(s[|s| - 1]) then 0
    else 1 + TrailingSpace(s[..|s| - 1])
  }

  /** Only whitespace follows the slice s[i..i + k] that remains once the
      leading and the trailing whitespace are cut off. */
  lemma StripTail(s: string, i: nat, k: nat)
    requires i == LeadingSpace(s) && k == |s| - i - TrailingSpace(s[i..])
    ensures i + k <= |s|
    ensures forall m :: i + k <= m < |s| ==> IsSpace(s[m])
  {
    hide *;
    var t := s[i..];
    var j := TrailingSpace(t);
    forall m | i + k <= m < |s| ensures IsSpace(s[m]) {
      assert s[m] == t[m - i];
    }
  }

  /** A non-empty remaining slice starts and ends with non-whitespace. */
  lemma StripEnds(s: string, i: nat, k: nat)
    requires i == LeadingSpace(s) && k == |s| - i - TrailingSpace(s[i..])
    ensures k > 0 ==> !IsSpace(s[i]) && !IsSpace(s[i + k - 1])
  {
    hide *;
    var t := s[i..];
    var j := TrailingSpace(t);
    if k > 0 {
      assert s[i + k - 1] == t[|t| - 1 - j];
    }
  }

  /** The remaining slice is empty exactly when s is all whitespace. */
  lemma StripEmpty(s: string, i: nat, k: nat)
    requires i == LeadingSpace(s) && k == |s| - i - TrailingSpace(s[i..])
    ensures k == 0 <==> AllSpace(s)
  {
    StripTail(s, i, k);
    StripEnds(s, i, k);
    hide LeadingSpace, TrailingSpace, IsSpace;
    if k == 0 {
      assert forall m :: 0 <= m < |s| ==> IsSpace(s[m]);
    }
  }

  /** The same facts, stated of the slice itself. */
  lemma StripSlice(s: string, i: nat, k: nat)
    requires i == LeadingSpace(s) && k == |s| - i - TrailingSpace(s[i..])
    ensures i + k <= |s|
    ensures var r := s[i..i + k];
      && (r == [] <==> AllSpace(s))
      && (r != [] ==> !IsSpace(r[0]) && !IsSpace(r[|r| - 1]))
      && AllSpace(s[..i]) && AllSpace(s[i + |r|..])
  {
    hide LeadingSpace, TrailingSpace, IsSpace;
    StripTail(s, i, k);
    StripEnds(s, i, k);
    StripEmpty(s, i, k);
    var r := s[i..i + k];
    assert |r| == k;
    if k > 0 {
      assert r[0] == s[i] && r[k - 1] == s[i + k - 1];
    }
  }

  /** Python's s.strip(): the slice of s that starts after its leading
      whitespace and neither starts nor ends with whitespace; only whitespace
      lies around it. */
  function Strip(s: string): (r: string)
    ensures r == [] <==> AllSpace(s)
    ensures r != [] ==> !IsSpace(r[0]) && !IsSpace(r[|r| - 1])
    ensures LeadingSpace(s) + |r| <= |s|
    ensures r == s[LeadingSpace(s)..LeadingSpace(s) + |r|]
    ensures AllSpace(s[..LeadingSpace(s)]) && AllSpace(s[LeadingSpace(s) + |r|..])
  {
    var i := LeadingSpace(s);
    var k := |s| - i - TrailingSpace(s[i..]);
    StripSlice(s, i, k);
    s[i..i + k]
  }

  lemma {:induction false} StripUnpadded(s: string)
    requires s != [] ==> !IsSpace(s[0]) && !IsSpace(s[|s| - 1])
    ensures Strip(s) == s
  {
    if s != [] {
      assert LeadingSpace(s) == 0;
      assert TrailingSpace(s) == 0;
    }
  }

  /** Python's s.replace(c, "") for a one-character c. */
  function RemoveChar(s: string, c: char): (r: string)
    ensures c !in r
    ensures |r| <= |s|
    ensures forall x :: x != c ==> multiset(r)[x] == multiset(s)[x]
  {
    if s == [] then []
    else
      var rest := RemoveChar(s[1..], c);
      assert s == [s[0]] + s[1..];
      (if s[0] == c then [] else [s[0]]) + rest
  }

  lemma {:induction false} RemoveCharAppend(a: string, b: string, c: char)
    ensures RemoveChar(a + b, c) == RemoveChar(a, c) + RemoveChar(b, c)
  {
    if a != [] {
      assert (a + b)[1..] == a[1..] + b;
      RemoveCharAppend(a[1..], b, c);
    } else {
      assert a + b == b;
    }
  }

  lemma {:induction false} RemoveCharAbsent(s: string, c: char)
    requires c !in s
    ensures RemoveChar(s, c) == s
  {
    if s != [] {
      RemoveCharAbsent(s[1..], c);
    }
  }

  predicate StartsWith(s: string, prefix: string) {
    |prefix| <= |s| && s[..|prefix|] == prefix
  }

  /** Python's s.split(sep) for a non-empty separator: the pieces between
      the non-overlapping occurrences of sep, scanning from the left. */
  function Split(s: string, sep: string): (r: seq<string>)
    requires sep != []
    ensures |r| >= 1
    decreases |s|
  {
    if |s| < |sep| then [s]
    else if s[..|sep|] == sep then [[]] + Split(s[|sep|..], sep)
    else
      var rest := Split(s[1..], sep);
      [[s[0]] + rest[0]] + rest[1..]
  }

  /** Python's sep.join(parts). */
  function Join(parts: seq<string>, sep: string): string {
    if parts == [] then []
    else if |parts| == 1 then parts[0]
    else parts[0] + sep + Join(parts[1..], sep)
  }

  lemma JoinCons(p: string, rest: seq<string>, sep: string)
    requires rest != []
    ensures Join([p] + rest, sep) == p + sep + Join(rest, sep)
  {
    assert ([p] + rest)[1..] == rest;
  }

  lemma JoinExtendFirst(c: char, rest: seq<string>, sep: string)
    requires rest != []
    ensures Join([[c] + rest[0]] + rest[1..], sep) == [c] + Join(rest, sep)
  {
    if |rest| > 1 {
      JoinCons([c] + rest[0], rest[1..], sep);
      JoinCons(rest[0], rest[1..], sep);
      assert [rest[0]] + rest[1..] == rest;
    }
  }

  /** Splitting loses nothing: joining the pieces with the separator gives s back. */
  lemma {:induction false} JoinSplit(s: string, sep: string)
    requires sep != []
    ensures Join(Split(s, sep), sep) == s
    decreases |s|
  {
    if |s| < |sep| {
      assert Split(s, sep) == [s];
    } else if s[..|sep|] == sep {
      var rest := Split(s[|sep|..], sep);
      assert Split(s, sep) == [[]] + rest;
      hide Split, Join;
      JoinSplit(s[|sep|..], sep);
      JoinCons([], rest, sep);
      assert s == sep + s[|sep|..];
    } else {
      var rest := Split(s[1..], sep);
      assert Split(s, sep) == [[s[0]] + rest[0]] + rest[1..];
      hide Split, Join;
      JoinSplit(s[1..], sep);
      JoinExtendFirst(s[0], rest, sep);
      assert s == [s[0]] + s[1..];
    }
  }

  /** Splitting on a one-character separator cuts at every occurrence: no
      piece contains the separator. With JoinSplit this pins the pieces down. */
  lemma {:induction false} SplitPiecesFree(s: string, sep: string)
    requires |sep| == 1
    ensures forall p :: p in Split(s, sep) ==> sep[0] !in p
    decreases |s|
  {
    if |s| < |sep| {
      assert s == [];
    } else if s[..|sep|] == sep {
      SplitPiecesFree(s[|sep|..], sep);
      assert Split(s, sep) == [[]] + Split(s[|sep|..], sep);
    } else {
      var rest := Split(s[1..], sep);
      SplitPiecesFree(s[1..], sep);
      assert s[..1] == [s[0]];
      assert rest[0] in rest;
      assert Split(s, sep) == [[s[0]] + rest[0]] + rest[1..];
      forall p | p in rest[1..] ensures sep[0] !in p {
        assert p in rest;
      }
    }
  }

  /** A string free of a one-character separator splits into itself alone. */
  lemma {:induction false} SplitWithoutSeparator(a: string, sep: string)
    requires |sep| == 1 && sep[0] !in a
    ensures Split(a, sep) == [a]
  {
    if a != [] {
      assert a[..1] != sep by { assert a[..1][0] == a[0]; }
      SplitWithoutSeparator(a[1..], sep);
      assert [a[0]] + a[1..] == a;
    }
  }

  /** Splitting a + sep + b, where a is free of the one-character separator,
      yields a followed by the pieces of b. */
  lemma {:induction false} SplitAfterField(a: string, sep: string, b: string)
    requires |sep| == 1 && sep[0] !in a
    ensures Split(a + sep + b, sep) == [a] + Split(b, sep)
  {
    var s := a + sep + b;
    if a == [] {
      assert s == sep + b;
      assert s[..1] == sep;
      assert s[1..] == b;
    } else {
      assert s[..1] != sep by { assert s[..1][0] == a[0]; }
      assert s[1..] == a[1..] + sep + b;
      SplitAfterField(a[1..], sep, b);
      assert [a[0]] + a[1..] == a;
    }
  }

  predicate IsDigit(c: char) {
    '0' <= c <= '9'
  }

  /** Python's s.isdigit() over ASCII: non-empty and made of digits only. */
  predicate IsDigits(s: string) {
    |s| > 0 && forall k :: 0 <= k < |s| ==> IsDigit(s[k])
  }

  function DigitValue(c: char): (d: nat)
    requires IsDigit(c)
    ensures d < 10
  {
    c as int - '0' as int
  }

  function DigitChar(d: nat): (c: char)
    requires d < 10
    ensures IsDigit(c) && DigitValue(c) == d
  {
    ('0' as int + d) as char
  }

  /** Python's int(s) for a string of decimal digits (leading zeros allowed). */
  function ParseDigits(s: string): nat
    requires forall k :: 0 <= k < |s| ==> IsDigit(s[k])
  {
    if s == [] then 0
    else 10 * ParseDigits(s[..|s| - 1]) + DigitValue(s[|s| - 1])
  }

  /** The decimal form of n without leading zeros (Python's str(n), f"{n}"). */
  function NatToString(n: nat): (r: string)
    ensures IsDigits(r)
    ensures n >= 10 ==> r[0] != '0'
  {
    if n < 10 then [DigitChar(n)]
    else NatToString(n / 10) + [DigitChar(n % 10)]
  }

  /** int(str(n)) == n. */
  lemma {:induction false} ParseNatToString(n: nat)
    ensures ParseDigits(NatToString(n)) == n
  {
    if n >= 10 {
      var s := NatToString(n);
      assert s[..|s| - 1] == NatToString(n / 10);
      ParseNatToString(n / 10);
    }
  }

  /** Different numbers have different decimal forms. */
  lemma NatToStringInjective(a: nat, b: nat)
    requires NatToString(a) == NatToString(b)
    ensures a == b
  {
    ParseNatToString(a);
    ParseNatToString(b);
  }
}
