/** The parts of Go's `strings` and `unicode` packages and of `fmt`'s `%d`
    verb that the cache server, the cache client and the code generator rely
    on. A Go string is modelled as the sequence of its code points. */
module GoStrings {

  /** `unicode.IsSpace`: the Latin-1 white space characters, and above
      U+00FF the characters with the Unicode White_Space property. */
  predicate IsSpace(c: char) {
    || c == ' ' || c == '\t' || c == '\n' || c == '\r'
    || c == '\U{000B}' || c == '\U{000C}' || c == '\U{0085}' || c == '\U{00A0}'
    || c == '\U{1680}' || ('\U{2000}' <= c <= '\U{200A}')
    || c == '\U{2028}' || c == '\U{2029}' || c == '\U{202F}'
    || c == '\U{205F}' || c == '\U{3000}'
  }

  predicate AllSpace(s: string) {
    forall i :: 0 <= i < |s| ==> IsSpace(s[i])
  }

  /** Neither end of `s` is white space: `TrimSpace` leaves such a string alone. */
  predicate Trimmed(s: string) {
    s == [] || (!IsSpace(s[0]) && !IsSpace(s[|s| - 1]))
  }

  /** Drops the leading white space of `s`. */
  function TrimLeft(s: string): (r: string)
    ensures |r| <= |s|
    ensures r == [] || !IsSpace(r[0])
  {
    if s != [] && IsSpace(s[0]) then TrimLeft(s[1..]) else s
  }

  /** Drops the trailing white space of `s`. */
  function TrimRight(s: string): (r: string)
    ensures |r| <= |s|
    ensures r == [] || !IsSpace(r[|r| - 1])
    ensures r != [] ==> r[0] == s[0]
  {
    if s != [] && IsSpace(s[|s| - 1]) then TrimRight(s[..|s| - 1]) else s
  }

  /** `strings.TrimSpace`. */
  function TrimSpace(s: string): (r: string)
    ensures Trimmed(r)
    ensures |r| <= |s|
  {
    TrimRight(TrimLeft(s))
  }

  /** TrimLeft removes a white-space prefix and nothing else. */
  lemma {:induction false} TrimLeftSuffix(s: string)
    ensures TrimLeft(s) == s[|s| - |TrimLeft(s)|..]
    ensures AllSpace(s[..|s| - |TrimLeft(s)|])
  {
    if s != [] && IsSpace(s[0]) {
      TrimLeftSuffix(s[1..]);
      var k := |s| - |TrimLeft(s)|;
      assert s[1..][k - 1..] == s[k..];
      assert forall j :: 1 <= j < k ==> s[..k][j] == s[1..][..k - 1][j - 1];
    }
  }

  /** TrimRight removes a white-space suffix and nothing else. */
  lemma {:induction false} TrimRightPrefix(s: string)
    ensures TrimRight(s) == s[..|TrimRight(s)|]
    ensures AllSpace(s[|TrimRight(s)|..])
  {
    if s != [] && IsSpace(s[|s| - 1]) {
      var t := s[..|s| - 1];
      TrimRightPrefix(t);
      var k := |TrimRight(s)|;
      assert t[..k] == s[..k];
      assert forall j :: k <= j < |s| - 1 ==> s[j] == t[k..][j - k];
    }
  }

  /** TrimSpace keeps a contiguous part of its input and drops only white
      space on either side of it. */
  lemma TrimSpaceInfix(s: string)
    ensures exists i :: 0 <= i <= |s| - |TrimSpace(s)|
                     && TrimSpace(s) == s[i..i + |TrimSpace(s)|]
                     && AllSpace(s[..i]) && AllSpace(s[i + |TrimSpace(s)|..])
  {
    var l := TrimLeft(s);
    var i := |s| - |l|;
    TrimLeftSuffix(s);
    TrimRightPrefix(l);
    var r := TrimSpace(s);
    assert l == s[i..];
    assert r == s[i..i + |r|];
    assert l[|r|..] == s[i + |r|..];
  }

  lemma {:induction false} TrimLeftPadded(a: string, x: string)
    requires AllSpace(a)
    requires x == [] || !IsSpace(x[0])
    ensures TrimLeft(a + x) == x
  {
    if a != [] {
      assert (a + x)[1..] == a[1..] + x;
      TrimLeftPadded(a[1..], x);
    }
  }

  lemma {:induction false} TrimRightPadded(x: string, b: string)
    requires AllSpace(b)
    requires x == [] || !IsSpace(x[|x| - 1])
    ensures TrimRight(x + b) == x
  {
    if b != [] {
      assert (x + b)[..|x + b| - 1] == x + b[..|b| - 1];
      TrimRightPadded(x, b[..|b| - 1]);
    }
  }

  /** TrimSpace removes exactly the white space around a trimmed core. */
  lemma TrimSpacePadded(a: string, x: string, b: string)
    requires AllSpace(a) && AllSpace(b) && Trimmed(x)
    ensures TrimSpace(a + x + b) == x
  {
    if x == [] {
      assert a + x + b == a + b;
      TrimLeftPadded(a + b, []);
      assert a + b + [] == a + b;
    } else {
      assert a + x + b == a + (x + b);
      TrimLeftPadded(a, x + b);
      TrimRightPadded(x, b);
    }
  }

  /** `sub` occurs in `s` at position `i`. */
  predicate OccursAt(s: string, sub: string, i: int) {
    0 <= i && i + |sub| <= |s| && s[i..i + |sub|] == sub
  }

  /** The first occurrence of `sub` in `s` at or after `from`, or -1. */
  function IndexFrom(s: string, sub: string, from: nat): (r: int)
    requires from <= |s|
    ensures r == -1 || (from <= r && OccursAt(s, sub, r))
    decreases |s| - from
  {
    if from + |sub| > |s| then -1
    else if s[from..from + |sub|] == sub then from
    else IndexFrom(s, sub, from + 1)
  }

  /** No occurrence at or after `from` comes before the one `IndexFrom`
      finds; none at all when it finds none. */
  lemma {:induction false} IndexFromFirst(s: string, sub: string, from: nat)
    requires from <= |s|
    ensures forall j :: from <= j && (IndexFrom(s, sub, from) == -1 || j < IndexFrom(s, sub, from))
                        ==> !OccursAt(s, sub, j)
    decreases |s| - from
  {
    if from + |sub| <= |s| && s[from..from + |sub|] != sub {
      IndexFromFirst(s, sub, from + 1);
    }
  }

  /** `strings.Index`: the first occurrence of `sub` in `s`, or -1. */
  function Index(s: string, sub: string): (r: int)
    ensures r == -1 || OccursAt(s, sub, r)
  {
    IndexFrom(s, sub, 0)
  }

  /** `strings.Index` with a one-character needle: the first position of
      `c` in `s`, or -1. */
  function IndexChar(s: string, c: char): (r: int)
    ensures -1 <= r < |s|
    ensures r >= 0 ==> s[r] == c
  {
    if s == [] then -1
    else if s[0] == c then 0
    else
      var i := IndexChar(s[1..], c);
      if i == -1 then -1 else i + 1
  }

  /** No `c` comes before the position `IndexChar` finds; none at all when it
      finds none. */
  lemma {:induction false} IndexCharFirst(s: string, c: char)
    ensures forall j :: 0 <= j < |s| && (IndexChar(s, c) < 0 || j < IndexChar(s, c)) ==> s[j] != c
  {
    if s != [] && s[0] != c {
      IndexCharFirst(s[1..], c);
      assert forall j :: 1 <= j < |s| ==> s[j] == s[1..][j - 1];
    }
  }

  /** Where `c` occurs, `IndexChar` finds an occurrence at or before it. */
  lemma IndexCharFound(s: string, c: char, k: int)
    requires 0 <= k < |s| && s[k] == c
    ensures 0 <= IndexChar(s, c) <= k
  {
    IndexCharFirst(s, c);
  }

  /** Where `c` occurs, `LastIndexChar` finds an occurrence at or after it. */
  lemma LastIndexCharFound(s: string, c: char, k: int)
    requires 0 <= k < |s| && s[k] == c
    ensures k <= LastIndexChar(s, c)
  {
    LastIndexCharLast(s, c);
  }

  /** The first `c` of `a` is also the first of anything `a` begins. */
  lemma {:induction false} IndexCharPrefix(a: string, b: string, c: char)
    requires IndexChar(a, c) >= 0
    ensures IndexChar(a + b, c) == IndexChar(a, c)
  {
    if a[0] != c {
      assert (a + b)[1..] == a[1..] + b;
      IndexCharPrefix(a[1..], b, c);
    }
  }

  /** `strings.LastIndex` with a one-character needle: the last position of
      `c` in `s`, or -1. */
  function LastIndexChar(s: string, c: char): (r: int)
    ensures -1 <= r < |s|
    ensures r >= 0 ==> s[r] == c
  {
    if s == [] then -1
    else if s[|s| - 1] == c then |s| - 1
    else LastIndexChar(s[..|s| - 1], c)
  }

  /** No `c` comes after the position `LastIndexChar` finds; none at all
      when it finds none. */
  lemma {:induction false} LastIndexCharLast(s: string, c: char)
    ensures forall j :: 0 <= j < |s| && LastIndexChar(s, c) < j ==> s[j] != c
  {
    if s != [] && s[|s| - 1] != c {
      LastIndexCharLast(s[..|s| - 1], c);
    }
  }

  /** `strings.Contains` with a one-character needle. */
  predicate ContainsChar(s: string, c: char) {
    IndexChar(s, c) >= 0
  }

  lemma ContainsCharMeaning(s: string, c: char)
    ensures ContainsChar(s, c) <==> c in s
  {
    IndexCharFirst(s, c);
  }

  /** A character found at no index is not in the string. */
  lemma Absent(a: string, c: char)
    requires forall j :: 0 <= j < |a| ==> a[j] != c
    ensures c !in a
  {
  }

  /** The number of occurrences of `c` in `s` (`strings.Count` for one character). */
  function Count(s: string, c: char): nat {
    if s == [] then 0 else (if s[0] == c then 1 else 0) + Count(s[1..], c)
  }

  /** Counting across an occurrence of `c` that is the first one. */
  lemma {:induction false} CountSplit(a: string, c: char, b: string)
    requires forall j :: 0 <= j < |a| ==> a[j] != c
    ensures Count(a + [c] + b, c) == 1 + Count(b, c)
  {
    if a == [] {
      assert a + [c] + b == [c] + b;
      assert ([c] + b)[1..] == b;
    } else {
      assert (a + [c] + b)[1..] == a[1..] + [c] + b;
      CountSplit(a[1..], c, b);
    }
  }

  /** No occurrence, no count. */
  lemma {:induction false} CountAbsent(a: string, c: char)
    ensures (forall j :: 0 <= j < |a| ==> a[j] != c) <==> Count(a, c) == 0
  {
    if a != [] {
      CountAbsent(a[1..], c);
      assert forall j :: 1 <= j < |a| ==> a[j] == a[1..][j - 1];
    }
  }

  lemma AppendAssoc<T>(a: seq<T>, b: seq<T>, c: seq<T>)
    ensures a + (b + c) == (a + b) + c
  {
  }

  /** Joins `parts` with `sep` between neighbours. */
  function Join(parts: seq<string>, sep: char): string {
    if parts == [] then []
    else if |parts| == 1 then parts[0]
    else parts[0] + [sep] + Join(parts[1..], sep)
  }

  lemma JoinThree(a: string, b: string, c: string, sep: char)
    ensures Join([a, b, c], sep) == a + [sep] + b + [sep] + c
  {
    assert [b, c][1..] == [c];
    assert Join([b, c], sep) == b + [sep] + c;
    assert [a, b, c][1..] == [b, c];
  }

  lemma JoinFour(a: string, b: string, c: string, d: string, sep: char)
    ensures Join([a, b, c, d], sep) == a + [sep] + b + [sep] + c + [sep] + d
  {
    assert [a, b, c, d][1..] == [b, c, d];
    JoinThree(b, c, d, sep);
  }

  /** `strings.SplitN(s, string(sep), n)`: at most `n` fields, the last one
      being the unsplit remainder; `n == 0` gives no fields. */
  function SplitN(s: string, sep: char, n: nat): (parts: seq<string>)
    ensures n == 0 ==> parts == []
    ensures n > 0 ==> 1 <= |parts| <= n
    decreases n
  {
    if n == 0 then []
    else if n == 1 then [s]
    else
      var i := IndexChar(s, sep);
      if i < 0 then [s]
      else [s[..i]] + SplitN(s[i + 1..], sep, n - 1)
  }

  /** Joining the fields with the separator gives back the input. */
  lemma {:induction false} SplitNJoin(s: string, sep: char, n: nat)
    requires n > 0
    ensures Join(SplitN(s, sep, n), sep) == s
    decreases n
  {
    var parts := SplitN(s, sep, n);
    var i := IndexChar(s, sep);
    if n == 1 || i < 0 {
      assert parts == [s];
    } else {
      var a, b := s[..i], s[i + 1..];
      var rest := SplitN(b, sep, n - 1);
      assert parts == [a] + rest;
      SplitNJoin(b, sep, n - 1);
      JoinCons(a, rest, sep);
      assert Join(parts, sep) == a + [sep] + b;
      CutAt(s, i);
    }
  }

  /** Joining one more leading part. */
  lemma JoinCons(a: string, rest: seq<string>, sep: char)
    requires rest != []
    ensures Join([a] + rest, sep) == a + [sep] + Join(rest, sep)
  {
    assert ([a] + rest)[1..] == rest;
  }

  /** `s` is the text before position `i`, the character at it and the text after. */
  lemma CutAt(s: string, i: int)
    requires 0 <= i < |s|
    ensures s == s[..i] + [s[i]] + s[i + 1..]
  {
  }

  /** As many fields as there are separators plus one, up to `n`. */
  lemma {:induction false} SplitNCount(s: string, sep: char, n: nat)
    requires n > 0
    ensures |SplitN(s, sep, n)| == if Count(s, sep) + 1 < n then Count(s, sep) + 1 else n
    decreases n
  {
    var i := IndexChar(s, sep);
    IndexCharFirst(s, sep);
    if n == 1 || i < 0 {
      CountAbsent(s, sep);
    } else {
      assert s == s[..i] + [sep] + s[i + 1..];
      CountSplit(s[..i], sep, s[i + 1..]);
      SplitNCount(s[i + 1..], sep, n - 1);
    }
  }

  /** Every field but the last holds no separator, and neither does the last
      when fewer than `n` fields came out. */
  predicate SeparatorFree(parts: seq<string>, sep: char, n: nat) {
    forall i :: 0 <= i < |parts| && (i < |parts| - 1 || |parts| < n) ==> sep !in parts[i]
  }

  lemma {:induction false} SplitNFields(s: string, sep: char, n: nat)
    ensures SeparatorFree(SplitN(s, sep, n), sep, n)
    decreases n
  {
    var parts := SplitN(s, sep, n);
    var i := IndexChar(s, sep);
    IndexCharFirst(s, sep);
    if n >= 2 && i < 0 {
      assert parts == [s];
      Absent(s, sep);
    } else if n >= 2 {
      var rest := SplitN(s[i + 1..], sep, n - 1);
      assert parts == [s[..i]] + rest;
      SplitNFields(s[i + 1..], sep, n - 1);
      Absent(s[..i], sep);
      assert forall k :: 1 <= k < |parts| ==> parts[k] == rest[k - 1];
    }
  }

  /** Splitting at a leading field that holds no separator. */
  lemma SplitNField(a: string, rest: string, sep: char, n: nat)
    requires n >= 2 && sep !in a
    ensures SplitN(a + [sep] + rest, sep, n) == [a] + SplitN(rest, sep, n - 1)
  {
    var s := a + [sep] + rest;
    assert s[|a|] == sep;
    IndexCharFirst(s, sep);
    assert IndexChar(s, sep) == |a|;
    assert s[..|a|] == a && s[|a| + 1..] == rest;
  }

  /** A string without a separator is a single field. */
  lemma SplitNWhole(a: string, sep: char, n: nat)
    requires n >= 1 && sep !in a
    ensures SplitN(a, sep, n) == [a]
  {
  }

  predicate IsDigit(c: char) {
    '0' <= c <= '9'
  }

  function DigitChar(d: nat): (c: char)
    requires d < 10
    ensures IsDigit(c)
  {
    ['0', '1', '2', '3', '4', '5', '6', '7', '8', '9'][d]
  }

  function DigitValue(c: char): nat
    requires IsDigit(c)
  {
    c as int - '0' as int
  }

  /** `fmt`'s `%d` of a non-negative integer: its decimal digits, most
      significant first, with no leading zero. */
  function Decimal(n: nat): (s: string)
    ensures s != [] && (forall i :: 0 <= i < |s| ==> IsDigit(s[i]))
    ensures s[0] == '0' ==> n == 0
  {
    if n < 10 then [DigitChar(n)] else Decimal(n / 10) + [DigitChar(n % 10)]
  }

  /** Reads a string of digits back as a number. */
  function DecimalValue(s: string): nat
    requires forall i :: 0 <= i < |s| ==> IsDigit(s[i])
  {
    if s == [] then 0 else 10 * DecimalValue(s[..|s| - 1]) + DigitValue(s[|s| - 1])
  }

  /** `%d` loses nothing: the number can be read back from its digits. */
  lemma {:induction false} DecimalRoundTrip(n: nat)
    ensures DecimalValue(Decimal(n)) == n
  {
    if n >= 10 {
      var s := Decimal(n);
      assert s[..|s| - 1] == Decimal(n / 10);
      DecimalRoundTrip(n / 10);
    }
  }

  /** Distinct numbers print differently. */
  lemma DecimalInjective(m: nat, n: nat)
    requires Decimal(m) == Decimal(n)
    ensures m == n
  {
    DecimalRoundTrip(m);
    DecimalRoundTrip(n);
  }

  lemma DecimalHasNoSpace(n: nat)
    ensures Trimmed(Decimal(n))
    ensures forall i :: 0 <= i < |Decimal(n)| ==> !IsSpace(Decimal(n)[i])
  {
  }
}
