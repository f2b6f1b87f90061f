/** String operations the modelled code takes from its standard libraries: searching and
    replacing, splitting, trimming, lower-casing and decimal rendering. Each is defined as the
    library documents it; the lemmas are the facts the other modules build on. */
module Text {

  datatype Option<+T> = None | Some(value: T) {
    predicate IsFailure() {
      None?
    }

    function PropagateFailure<U>(): Option<U>
      requires None?
    {
      None
    }

    function Extract(): T
      requires Some?
    {
      value
    }
  }

  // ---------- searching ----------

  predicate HasAt(s: string, p: string, i: nat) {
    i + |p| <= |s| && forall k | 0 <= k < |p| :: s[i + k] == p[k]
  }

  predicate Contains(s: string, p: string) {
    exists i | 0 <= i <= |s| :: HasAt(s, p, i)
  }

  function FindFrom(s: string, p: string, i: nat): (r: Option<nat>)
    requires i <= |s|
    ensures r.Some? ==> i <= r.value && HasAt(s, p, r.value)
    ensures r.Some? ==> forall j | i <= j < r.value :: !HasAt(s, p, j)
    ensures r.None? ==> forall j: nat | i <= j :: !HasAt(s, p, j)
    decreases |s| - i
  {
    if HasAt(s, p, i) then Some(i)
    else if i == |s| then None
    else FindFrom(s, p, i + 1)
  }

  /** The first occurrence of `p` in `s`. */
  function Find(s: string, p: string): (r: Option<nat>)
    ensures r.Some? ==> HasAt(s, p, r.value)
    ensures r.Some? ==> forall j: nat | j < r.value :: !HasAt(s, p, j)
    ensures r.None? ==> forall j: nat :: !HasAt(s, p, j)
  {
    FindFrom(s, p, 0)
  }

  lemma FindIs(s: string, p: string, i: nat)
    requires HasAt(s, p, i)
    requires forall j: nat | j < i :: !HasAt(s, p, j)
    ensures Find(s, p).Some? && Find(s, p).value == i
  {
  }

  /** The last character of `s` that satisfies `p`. */
  function RFind(s: string, p: char -> bool): (r: Option<nat>)
    ensures r.Some? ==> r.value < |s| && p(s[r.value])
    ensures r.Some? ==> forall i | r.value < i < |s| :: !p(s[i])
    ensures r.None? ==> forall i | 0 <= i < |s| :: !p(s[i])
  {
    if s == "" then None
    else if p(s[|s| - 1]) then Some(|s| - 1)
    else
      var r := RFind(s[..|s| - 1], p);
      assert forall i | 0 <= i < |s| - 1 :: s[..|s| - 1][i] == s[i];
      r
  }

  /** The part of `s` after the prefix `p`. */
  function Strip(s: string, p: string): Option<string> {
    if p <= s then Some(s[|p|..]) else None
  }

  lemma StripReads(s: string, p: string)
    requires Strip(s, p).Some?
    ensures s == p + Strip(s, p).value
  {
  }

  lemma StripPrefix(p: string, r: string)
    ensures Strip(p + r, p) == Some(r)
  {
  }

  // ---------- replacing ----------

  /** Replaces the non-overlapping occurrences of `p`, left to right. */
  function Replace(s: string, p: string, with: string): string
    requires p != ""
    decreases |s|
  {
    match Find(s, p)
    case None => s
    case Some(i) => s[..i] + with + Replace(s[i + |p|..], p, with)
  }

  /** An occurrence never straddles a character the pattern lacks. */
  lemma HasAtSplit(x: string, c: char, y: string, p: string, j: nat)
    requires c !in p
    requires p != ""
    ensures HasAt(x + [c] + y, p, j) <==>
              if j <= |x| then HasAt(x, p, j) else HasAt(y, p, j - |x| - 1)
  {
    var w := x + [c] + y;
    if j <= |x| {
      assert forall k | 0 <= k < |x| :: w[k] == x[k];
      if j + |p| > |x| {
        assert w[|x|] != p[|x| - j];
      }
    } else {
      assert forall k | 0 <= k < |y| :: w[|x| + 1 + k] == y[k];
    }
  }

  lemma HasAtRight(x: string, y: string, p: string, j: nat)
    ensures HasAt(x + y, p, |x| + j) <==> HasAt(y, p, j)
  {
    assert forall k | 0 <= k < |y| :: (x + y)[|x| + k] == y[k];
  }

  lemma FindSplit(x: string, c: char, y: string, p: string)
    requires c !in p
    requires p != ""
    ensures Find(x + [c] + y, p).Some? <==> Find(x, p).Some? || Find(y, p).Some?
    ensures Find(x, p).Some? ==> Find(x + [c] + y, p).value == Find(x, p).value
    ensures Find(x, p).None? && Find(y, p).Some? ==>
              Find(x + [c] + y, p).value == |x| + 1 + Find(y, p).value
  {
    var w := x + [c] + y;
    forall j: nat
      ensures HasAt(w, p, j) <==> if j <= |x| then HasAt(x, p, j) else HasAt(y, p, j - |x| - 1)
    {
      HasAtSplit(x, c, y, p, j);
    }
    if Find(x, p).Some? {
      FindIs(w, p, Find(x, p).value);
    } else if Find(y, p).Some? {
      FindIs(w, p, |x| + 1 + Find(y, p).value);
    }
  }

  /** One replacement step: the text before the first occurrence, and the text after it. */
  lemma ReplaceStep(s: string, p: string, with: string) returns (head: string, rest: string)
    requires p != ""
    requires Find(s, p).Some?
    ensures s == head + p + rest
    ensures Find(s, p).value == |head|
    ensures Replace(s, p, with) == head + with + Replace(rest, p, with)
  {
    var i := Find(s, p).value;
    head, rest := s[..i], s[i + |p|..];
  }

  lemma ReplaceAt(s: string, p: string, with: string, head: string, rest: string)
    requires p != ""
    requires s == head + p + rest
    requires Find(s, p).Some? && Find(s, p).value == |head|
    ensures Replace(s, p, with) == head + with + Replace(rest, p, with)
  {
    assert s[..|head|] == head;
    assert s[|head| + |p|..] == rest;
  }

  /** A prefix in which no occurrence starts stays as it is. */
  lemma ReplaceSkip(a: string, s: string, p: string, with: string)
    requires p != ""
    requires Find(a + s, p).Some? <==> Find(s, p).Some?
    requires Find(s, p).Some? ==> Find(a + s, p).value == |a| + Find(s, p).value
    ensures Replace(a + s, p, with) == a + Replace(s, p, with)
  {
    if Find(s, p).Some? {
      var head, rest := ReplaceStep(s, p, with);
      Prepend(a, head, p, rest);
      ReplaceAt(a + s, p, with, a + head, rest);
      Prepend(a, head, with, Replace(rest, p, with));
    }
  }

  lemma Prepend(a: string, b: string, c: string, d: string)
    ensures a + (b + c + d) == (a + b) + c + d
  {
  }

  lemma Regroup(a: string, b: string, r: string, d: string, e: string)
    ensures a + b + (r + d + e) == (a + b + r) + d + e
  {
  }

  /** Replacement works separately on both sides of a character the pattern lacks. */
  lemma {:induction false} ReplaceSplit(x: string, c: char, y: string, p: string, with: string)
    requires p != ""
    requires c !in p
    ensures Replace(x + [c] + y, p, with) == Replace(x, p, with) + [c] + Replace(y, p, with)
    decreases |x|
  {
    FindSplit(x, c, y, p);
    if Find(x, p).Some? {
      var head, rest := ReplaceStep(x, p, with);
      ReplaceSplit(rest, c, y, p, with);
      Regroup(head, p, rest, [c], y);
      ReplaceAt(x + [c] + y, p, with, head, rest + [c] + y);
      Regroup(head, with, Replace(rest, p, with), [c], Replace(y, p, with));
    } else {
      ReplaceSkip(x + [c], y, p, with);
    }
  }

  lemma ReplaceWhole(p: string, with: string)
    requires p != ""
    ensures Replace(p, p, with) == with
  {
    FindIs(p, p, 0);
    assert p[|p|..] == "";
    assert Find("", p) == None;
  }

  // ---------- splitting ----------

  /** The text before the first `c`; all of it when there is none. */
  function Before(s: string, c: char): (r: string)
    ensures r <= s && c !in r
    ensures |r| < |s| ==> s[|r|] == c
  {
    if s == "" || s[0] == c then "" else [s[0]] + Before(s[1..], c)
  }

  lemma {:induction false} BeforeIs(x: string, c: char, y: string)
    requires c !in x
    requires y == "" || y[0] == c
    ensures Before(x + y, c) == x
  {
    var s, b := x + y, Before(x + y, c);
    assert forall i | 0 <= i < |x| :: s[i] == x[i] && s[i] != c;
    assert forall i | 0 <= i < |b| :: b[i] == s[i] && s[i] != c;
    assert y != "" ==> s[|x|] == c;
    assert |b| == |x|;
  }

  lemma BeforeIff(x: string, c: char, s: string)
    requires c !in x
    ensures Before(s, c) == x <==> s == x || x + [c] <= s
  {
    if s == x {
      assert x + "" == x;
      BeforeIs(x, c, "");
    } else if x + [c] <= s {
      assert s == x + s[|x|..] && s[|x|] == (x + [c])[|x|];
      BeforeIs(x, c, s[|x|..]);
    }
  }

  /** A text cut at its first `c`. */
  lemma Cut(s: string, c: char) returns (l: string, r: string)
    requires c in s
    ensures s == l + ([c] + r) && c !in l && |r| < |s|
  {
    l := Before(s, c);
    assert l != s;
    r := s[|l| + 1..];
  }

  lemma Assoc<T>(a: seq<T>, b: seq<T>, c: seq<T>)
    ensures a + (b + c) == a + b + c
  {
  }

  function Split(s: string, c: char): (r: seq<string>)
    ensures |r| > 0
    ensures forall i | 0 <= i < |r| :: c !in r[i]
    decreases |s|
  {
    var h := Before(s, c);
    if |h| == |s| then [h] else [h] + Split(s[|h| + 1..], c)
  }

  lemma SplitOne(h: string, c: char)
    requires c !in h
    ensures Split(h, c) == [h]
  {
    BeforeIs(h, c, "");
    assert h + "" == h;
  }

  lemma SplitMore(h: string, c: char, rest: string)
    requires c !in h
    ensures Split(h + ([c] + rest), c) == [h] + Split(rest, c)
  {
    var s := h + ([c] + rest);
    BeforeIs(h, c, [c] + rest);
    assert s[|h| + 1..] == rest;
  }

  function StripReturn(s: string): string {
    if s != "" && s[|s| - 1] == '\r' then s[..|s| - 1] else s
  }

  /** `lines`: a line ends at a newline or a return and a newline; no empty line after the last. */
  function Lines(s: string): seq<string>
    decreases |s|
  {
    if s == "" then [] else
    var l := Before(s, '\n');
    if |l| == |s| then [l] else [StripReturn(l)] + Lines(s[|l| + 1..])
  }

  /** Both line ends are cut off. */
  lemma LineFeed(l: string, rest: string)
    requires '\n' !in l && (l == "" || l[|l| - 1] != '\r')
    ensures Lines(l + ("\n" + rest)) == [l] + Lines(rest)
  {
    LineCut(l, rest);
  }

  lemma LineReturn(l: string, rest: string)
    requires '\n' !in l
    ensures Lines((l + "\r") + ("\n" + rest)) == [l] + Lines(rest)
  {
    LineCut(l + "\r", rest);
    assert (l + "\r")[..|l + "\r"| - 1] == l;
  }

  lemma LineCut(l: string, rest: string)
    requires '\n' !in l
    ensures Lines(l + ("\n" + rest)) == [StripReturn(l)] + Lines(rest)
  {
    var s := l + ("\n" + rest);
    BeforeIs(l, '\n', "\n" + rest);
    assert s[|l| + 1..] == rest;
  }

  /** A text splits in one way at its first separator, and in one way at its last. */
  lemma SplitFirst(x: string, c: char, y: string, x': string, y': string)
    requires c !in x && c !in x'
    requires x + [c] + y == x' + [c] + y'
    ensures x == x' && y == y'
  {
    var s := x + [c] + y;
    assert s[|x|] == c && s[|x'|] == c;
    assert x == s[..|x|] && x' == s[..|x'|];
    assert y == s[|x| + 1..] && y' == s[|x'| + 1..];
  }

  lemma SplitLast(x: string, c: char, y: string, x': string, y': string)
    requires c !in y && c !in y'
    requires x + [c] + y == x' + [c] + y'
    ensures x == x' && y == y'
  {
    var s := x + [c] + y;
    assert s[|x|] == c && s[|x'|] == c;
    assert x == s[..|x|] && x' == s[..|x'|];
    assert y == s[|x| + 1..] && y' == s[|x'| + 1..];
  }

  // ---------- characters ----------

  /** The characters with the Unicode property White_Space. */
  predicate IsSpace(c: char) {
    || '\U{9}' <= c <= '\U{d}' || c == ' ' || c == '\U{85}' || c == '\U{a0}' || c == '\U{1680}'
    || '\U{2000}' <= c <= '\U{200a}' || c == '\U{2028}' || c == '\U{2029}' || c == '\U{202f}'
    || c == '\U{205f}' || c == '\U{3000}'
  }

  /** What `\s` matches in the generator's regular expressions. */
  predicate IsBlank(c: char) {
    IsSpace(c) || '\U{1c}' <= c <= '\U{1f}'
  }

  /** Below 128: tab to carriage return and the space; the generator's also takes four separators. */
  lemma AsciiSpaces(c: char)
    requires c as int < 128
    ensures IsSpace(c) <==> c in {'\t', '\n', '\U{b}', '\U{c}', '\r', ' '}
    ensures IsBlank(c) <==> c in {'\t', '\n', '\U{b}', '\U{c}', '\r', ' ', '\U{1c}', '\U{1d}', '\U{1e}', '\U{1f}'}
  {
  }

  predicate IsDigit(c: char) {
    '0' <= c <= '9'
  }

  function TrimStart(s: string): (r: string)
    ensures r == "" || !IsSpace(r[0])
  {
    if s != "" && IsSpace(s[0]) then TrimStart(s[1..]) else s
  }

  function TrimEnd(s: string): (r: string)
    ensures r == "" || !IsSpace(r[|r| - 1])
  {
    if s != "" && IsSpace(s[|s| - 1]) then TrimEnd(s[..|s| - 1]) else s
  }

  function Trim(s: string): string {
    TrimEnd(TrimStart(s))
  }

  predicate AllSpace(s: string) {
    forall i | 0 <= i < |s| :: IsSpace(s[i])
  }

  predicate IsTrimmed(s: string) {
    s == "" || (!IsSpace(s[0]) && !IsSpace(s[|s| - 1]))
  }

  lemma {:induction false} TrimStartIs(a: string, r: string)
    requires AllSpace(a) && (r == "" || !IsSpace(r[0]))
    ensures TrimStart(a + r) == r
  {
    if a == "" {
      assert a + r == r;
    } else {
      assert (a + r)[1..] == a[1..] + r;
      TrimStartIs(a[1..], r);
    }
  }

  lemma {:induction false} TrimEndIs(r: string, b: string)
    requires AllSpace(b) && (r == "" || !IsSpace(r[|r| - 1]))
    ensures TrimEnd(r + b) == r
  {
    if b == "" {
      assert r + b == r;
    } else {
      var s := r + b;
      assert s[..|s| - 1] == r + b[..|b| - 1] && s[|s| - 1] == b[|b| - 1];
      TrimEndIs(r, b[..|b| - 1]);
    }
  }

  /** Trimming takes the blanks off both ends. */
  lemma TrimIs(a: string, c: string, b: string)
    requires AllSpace(a) && AllSpace(b) && IsTrimmed(c)
    ensures Trim(a + (c + b)) == c
  {
    if c == "" {
      assert a + (c + b) == (a + b) + "";
      TrimStartIs(a + b, "");
    } else {
      TrimStartIs(a, c + b);
      TrimEndIs(c, b);
    }
  }

  lemma {:induction false} TrimStartSplit(s: string) returns (a: string)
    ensures AllSpace(a) && s == a + TrimStart(s)
  {
    if s != "" && IsSpace(s[0]) {
      var rest := TrimStartSplit(s[1..]);
      a := [s[0]] + rest;
    } else {
      a := "";
    }
  }

  function LowerChar(c: char): (r: char)
    ensures !('A' <= r <= 'Z')
  {
    if 'A' <= c <= 'Z' then (c as int + 32) as char else c
  }

  /** ASCII lower-casing; other characters stay. */
  function Lower(s: string): (r: string)
    ensures |r| == |s|
  {
    seq(|s|, i requires 0 <= i < |s| => LowerChar(s[i]))
  }

  /** `t` is `s` with every capital letter made small, character by character. */
  predicate IsSmall(s: string, t: string) {
    |t| == |s| && forall i | 0 <= i < |s| ::
      if 'A' <= s[i] <= 'Z' then t[i] as int == s[i] as int + ('a' as int - 'A' as int) else t[i] == s[i]
  }

  lemma LowerIsSmall(s: string, t: string)
    ensures Lower(s) == t <==> IsSmall(s, t)
  {
    if IsSmall(s, t) {
      assert forall i | 0 <= i < |s| :: LowerChar(s[i]) == t[i];
    }
  }

  lemma LowerTwice(s: string)
    ensures Lower(Lower(s)) == Lower(s)
  {
  }

  // ---------- decimal numbers ----------

  function DigitChar(d: nat): (c: char)
    requires d < 10
    ensures IsDigit(c)
  {
    ('0' as int + d) as char
  }

  function DigitValue(c: char): (d: nat)
    requires IsDigit(c)
    ensures d < 10 && DigitChar(d) == c
  {
    (c as int - '0' as int)
  }

  predicate AllDigits(s: string) {
    forall i | 0 <= i < |s| :: IsDigit(s[i])
  }

  /** The canonical decimal of `n`. */
  function Decimal(n: nat): (s: string)
    ensures s != "" && AllDigits(s)
  {
    if n < 10 then [DigitChar(n)] else Decimal(n / 10) + [DigitChar(n % 10)]
  }

  function Value(s: string): nat
    requires AllDigits(s)
  {
    if s == "" then 0 else 10 * Value(s[..|s| - 1]) + DigitValue(s[|s| - 1])
  }

  lemma {:induction false} ValueOfDecimal(n: nat)
    ensures Value(Decimal(n)) == n
  {
    var s := Decimal(n);
    if n >= 10 {
      ValueOfDecimal(n / 10);
      assert s[..|s| - 1] == Decimal(n / 10);
    }
  }

  lemma DecimalInjective(m: nat, n: nat)
    requires Decimal(m) == Decimal(n)
    ensures m == n
  {
    ValueOfDecimal(m);
    ValueOfDecimal(n);
  }
}
