/** The basis of an error's fingerprint: what of a report is kept, so that the same error from
    another build, another track or a deeper stack gets the same fingerprint. */
module Fingerprint {
  import opened Text

  const FRAMES := 3
  const JS := ".js"

  // ---------- digit runs ----------

  /** `numbered`: every run of digits becomes one `#`. */
  function Numbered(s: string, inDigits: bool): string {
    if s == "" then ""
    else if IsDigit(s[0]) then (if inDigits then "" else "#") + Numbered(s[1..], true)
    else [s[0]] + Numbered(s[1..], false)
  }

  function Piece(c: char, inDigits: bool): string {
    if !IsDigit(c) then [c] else if inDigits then "" else "#"
  }

  lemma NumberedStep(text: string, i: nat, d: bool)
    requires i < |text|
    ensures Numbered(text[i..], d) == Piece(text[i], d) + Numbered(text[i + 1..], IsDigit(text[i]))
  {
    assert text[i..][1..] == text[i + 1..];
  }

  method NumberedText(text: string) returns (out: string)
    ensures out == Numbered(text, false)
  {
    out := "";
    var inDigits := false;
    for i := 0 to |text|
      invariant out + Numbered(text[i..], inDigits) == Numbered(text, false)
    {
      var ch := text[i];
      NumberedStep(text, i, inDigits);
      Assoc(out, Piece(ch, inDigits), Numbered(text[i + 1..], IsDigit(ch)));
      if IsDigit(ch) {
        if !inDigits {
          out := out + "#";
        }
        inDigits := true;
      } else {
        inDigits := false;
        out := out + [ch];
      }
    }
  }

  predicate EndsInDigit(s: string, before: bool) {
    if s == "" then before else IsDigit(s[|s| - 1])
  }

  lemma {:induction false} NumberedAppend(a: string, b: string, d: bool)
    ensures Numbered(a + b, d) == Numbered(a, d) + Numbered(b, EndsInDigit(a, d))
  {
    if a == "" {
      assert a + b == b;
    } else {
      assert (a + b)[0] == a[0] && (a + b)[1..] == a[1..] + b;
      NumberedAppend(a[1..], b, IsDigit(a[0]));
      Assoc(Piece(a[0], d), Numbered(a[1..], IsDigit(a[0])), Numbered(b, EndsInDigit(a, d)));
    }
  }

  lemma {:induction false} NumberedRun(r: string, d: bool)
    requires AllDigits(r) && r != ""
    ensures Numbered(r, d) == if d then "" else "#"
  {
    if |r| > 1 {
      NumberedRun(r[1..], true);
    }
  }

  /** Any run of digits may be swapped for any other. */
  lemma DigitsDoNotCount(a: string, r: string, r': string, b: string, d: bool)
    requires AllDigits(r) && r != "" && AllDigits(r') && r' != ""
    ensures Numbered(a + (r + b), d) == Numbered(a + (r' + b), d)
  {
    var e := EndsInDigit(a, d);
    NumberedAppend(a, r + b, d);
    NumberedAppend(a, r' + b, d);
    NumberedAppend(r, b, e);
    NumberedAppend(r', b, e);
    NumberedRun(r, e);
    NumberedRun(r', e);
  }

  lemma {:induction false} NumberedHasNoDigits(s: string, d: bool)
    ensures forall c | c in Numbered(s, d) :: !IsDigit(c)
  {
    if s != "" { NumberedHasNoDigits(s[1..], IsDigit(s[0])); }
  }

  lemma {:induction false} NumberedFixes(s: string, d: bool)
    requires forall c | c in s :: !IsDigit(c)
    ensures Numbered(s, d) == s
  {
    if s != "" { NumberedFixes(s[1..], false); }
  }

  lemma NumberedIsIdempotent(s: string)
    ensures Numbered(Numbered(s, false), false) == Numbered(s, false)
  {
    NumberedHasNoDigits(s, false);
    NumberedFixes(Numbered(s, false), false);
  }

  function AfterDigits(s: string): (r: string)
    ensures |r| <= |s| && (r == "" || !IsDigit(r[0]))
    ensures s != "" && IsDigit(s[0]) ==> |r| < |s|
  {
    if s != "" && IsDigit(s[0]) then AfterDigits(s[1..]) else s
  }

  /** The texts differ in the digits of their digit runs only. */
  predicate SameButDigits(x: string, y: string)
    decreases |x|
  {
    if x == "" || y == "" then x == y
    else if IsDigit(x[0]) || IsDigit(y[0]) then
      IsDigit(x[0]) && IsDigit(y[0]) && SameButDigits(AfterDigits(x), AfterDigits(y))
    else x[0] == y[0] && SameButDigits(x[1..], y[1..])
  }

  lemma {:induction false} NumberedRunHead(s: string)
    ensures Numbered(s, true) == Numbered(AfterDigits(s), false)
  {
    if s != "" && IsDigit(s[0]) { NumberedRunHead(s[1..]); }
  }

  lemma AfterDigitsIsSuffix(s: string)
    ensures forall c | c in AfterDigits(s) :: c in s
  {
  }

  /** For texts that hold no `#` themselves, nothing but digits is forgotten. */
  lemma {:induction false} OnlyDigitsAreForgotten(x: string, y: string)
    requires '#' !in x && '#' !in y
    ensures Numbered(x, false) == Numbered(y, false) <==> SameButDigits(x, y)
    decreases |x|
  {
    if x != "" && y != "" {
      var u, v := Numbered(x, false), Numbered(y, false);
      if IsDigit(x[0]) && IsDigit(y[0]) {
        NumberedRunHead(x[1..]);
        NumberedRunHead(y[1..]);
        AfterDigitsIsSuffix(x);
        AfterDigitsIsSuffix(y);
        OnlyDigitsAreForgotten(AfterDigits(x), AfterDigits(y));
        assert u[1..] == Numbered(AfterDigits(x), false) && v[1..] == Numbered(AfterDigits(y), false);
      } else if !IsDigit(x[0]) && !IsDigit(y[0]) {
        OnlyDigitsAreForgotten(x[1..], y[1..]);
        assert u[1..] == Numbered(x[1..], false) && v[1..] == Numbered(y[1..], false);
      } else {
        assert u[0] != v[0];
      }
    }
  }

  // ---------- build hashes in asset names ----------

  predicate IsSeparator(c: char) {
    c == '/' || c == '(' || c == ' ' || c == '@'
  }

  /** Where the file name at the end of `before` starts. */
  function NameStart(before: string): (n: nat)
    ensures n <= |before|
    ensures forall i | n <= i < |before| :: !IsSeparator(before[i])
    ensures n == 0 || IsSeparator(before[n - 1])
  {
    match RFind(before, IsSeparator)
    case None => 0
    case Some(i) => i + 1
  }

  /** The name up to its last dash. */
  function Stem(name: string): (r: string)
    ensures r <= name
    ensures r == name ==> '-' !in name
    ensures r != name ==> name[|r|] == '-' && '-' !in name[|r| + 1..]
  {
    match RFind(name, c => c == '-')
    case None => name
    case Some(i) => name[..i]
  }

  function WithoutHash(before: string): string {
    before[..NameStart(before)] + Stem(before[NameStart(before)..])
  }

  function Unhash(frame: string): string
    decreases |frame|
  {
    match Find(frame, JS)
    case None => frame
    case Some(at) => WithoutHash(frame[..at]) + JS + Unhash(frame[at + 3..])
  }

  lemma Regrouped(out: string, a: string, b: string, c: string, d: string)
    ensures out + (a + b + c + d) == (out + a + b + c) + d
  {
  }

  /** `unhashed`. */
  method Unhashed(frame: string) returns (out: string)
    ensures out == Unhash(frame)
  {
    out := "";
    var rest := frame;
    while true
      invariant out + Unhash(rest) == Unhash(frame)
      decreases |rest|
    {
      var found := Find(rest, JS);
      if found.None? {
        break;
      }
      var before := rest[..found.value];
      var nameStart := NameStart(before);
      Regrouped(out, before[..nameStart], Stem(before[nameStart..]), JS, Unhash(rest[found.value + 3..]));
      out := out + before[..nameStart] + Stem(before[nameStart..]) + JS;
      rest := rest[found.value + 3..];
    }
    out := out + rest;
  }

  /** A build hash: no dash, no separator, no white space, no `.js` of its own. */
  predicate IsHash(h: string) {
    && !Contains(h, JS)
    && forall c | c in h :: c != '-' && c != '/' && c != '(' && c != ' ' && c != '@' && !IsSpace(c)
  }

  lemma NameStartBeforeHash(x: string, h: string)
    requires IsHash(h)
    ensures NameStart(x + ['-'] + h) <= |x|
  {
    var before := x + ['-'] + h;
    forall i | |x| < i < |before|
      ensures !IsSeparator(before[i])
    {
      assert before[i] == h[i - |x| - 1] && h[i - |x| - 1] in h;
    }
  }

  lemma StemOfHashed(y: string, h: string)
    requires '-' !in h
    ensures Stem(y + ['-'] + h) == y
  {
    var name := y + ['-'] + h;
    var stem := Stem(name);
    assert name[|y|] == '-';
    assert forall i | |y| < i < |name| :: name[i] == h[i - |y| - 1];
    assert |stem| == |y|;
  }

  lemma WithoutHashDropsHash(x: string, h: string)
    requires IsHash(h)
    ensures WithoutHash(x + ['-'] + h) == x
  {
    var before := x + ['-'] + h;
    NameStartBeforeHash(x, h);
    var n := NameStart(before);
    assert before[n..] == x[n..] + ['-'] + h;
    StemOfHashed(x[n..], h);
    assert before[..n] == x[..n];
  }

  lemma FindAfterHash(h: string, b: string)
    requires !Contains(h, JS)
    ensures Find(h + (JS + b), JS).Some? && Find(h + (JS + b), JS).value == |h|
  {
    var s := h + (JS + b);
    forall j: nat | j < |h|
      ensures !HasAt(s, JS, j)
    {
      assert !HasAt(h, JS, j);
      if j + 3 <= |h| {
        var k :| 0 <= k < 3 && h[j + k] != JS[k];
        assert s[j + k] != JS[k];
      } else if j + 2 == |h| {
        assert s[j + 2] != JS[2];
      } else {
        assert s[j + 1] != JS[1];
      }
    }
    assert HasAt(s, JS, |h|);
    FindIs(s, JS, |h|);
  }

  /** A text around a build hash. */
  function Hashed(x: string, h: string, b: string): string {
    x + ['-'] + (h + (JS + b))
  }

  lemma FindBeforeHash(x: string, h: string, b: string)
    requires IsHash(h)
    ensures Find(Hashed(x, h, b), JS).Some?
    ensures Find(Hashed(x, h, b), JS).value == if Find(x, JS).Some? then Find(x, JS).value else |x| + 1 + |h|
  {
    FindSplit(x, '-', h + (JS + b), JS);
    FindAfterHash(h, b);
  }

  lemma UnhashStep(s: string, left: string, right: string)
    requires s == left + (JS + right) && Find(s, JS).Some? && Find(s, JS).value == |left|
    ensures Unhash(s) == WithoutHash(left) + JS + Unhash(right)
  {
    assert s[..|left|] == left;
    assert s[|left| + 3..] == right;
  }

  lemma UnhashLast(x: string, h: string, b: string)
    requires IsHash(h) && Find(x, JS).None?
    ensures Unhash(Hashed(x, h, b)) == x + JS + Unhash(b)
  {
    FindBeforeHash(x, h, b);
    assert Hashed(x, h, b) == (x + ['-'] + h) + (JS + b);
    UnhashStep(Hashed(x, h, b), x + ['-'] + h, b);
    WithoutHashDropsHash(x, h);
  }

  lemma UnhashEarlier(x: string, h: string, b: string, left: string, right: string)
    requires IsHash(h) && Find(x, JS).Some? && Find(x, JS).value == |left| && x == left + (JS + right)
    ensures Unhash(Hashed(x, h, b)) == WithoutHash(left) + JS + Unhash(Hashed(right, h, b))
  {
    FindBeforeHash(x, h, b);
    assert Hashed(x, h, b) == left + (JS + Hashed(right, h, b));
    UnhashStep(Hashed(x, h, b), left, Hashed(right, h, b));
  }

  /** A frame without a dash is kept as it is. */
  lemma {:induction false} UnhashKeepsPlain(s: string)
    requires '-' !in s
    ensures Unhash(s) == s
    decreases |s|
  {
    if Find(s, JS).Some? {
      var left, right := ReplaceStep(s, JS, "");
      Assoc(left, JS, right);
      UnhashStep(s, left, right);
      UnhashKeepsPlain(right);
      WithoutHashKeepsPlain(left);
      Assoc(left, JS, right);
    }
  }

  lemma WithoutHashKeepsPlain(s: string)
    requires '-' !in s
    ensures WithoutHash(s) == s
  {
    var n := NameStart(s);
    var name := s[n..];
    assert Stem(name) == name by {
      assert forall i | 0 <= i < |name| :: name[i] == s[n + i];
    }
  }

  lemma WithoutHashKeepsName(x: string, sep: char, name: string)
    requires sep == '/' || sep == '(' || sep == ' ' || sep == '@'
    requires '-' !in name
    ensures WithoutHash(x + [sep] + name) == x + [sep] + name
  {
    var s := x + [sep] + name;
    var n := NameStart(s);
    assert s[|x|] == sep && n > |x|;
    assert forall i | n <= i < |s| :: s[i] == name[i - |x| - 1];
    assert Stem(s[n..]) == s[n..] by {
      assert forall i | 0 <= i < |s[n..]| :: s[n..][i] == s[n + i];
    }
  }

  /** A file name without a dash is kept, whatever dashes stand before its path ends. */
  lemma UnhashKeepsName(x: string, sep: char, name: string, b: string)
    requires sep == '/' || sep == '(' || sep == ' ' || sep == '@'
    requires '-' !in name && Find(x, JS).None? && !Contains(name, JS)
    ensures Unhash((x + [sep] + name) + (JS + b)) == (x + [sep] + name) + JS + Unhash(b)
  {
    var left := x + [sep] + name;
    FindSplit(x, sep, name + (JS + b), JS);
    FindAfterHash(name, b);
    assert left + (JS + b) == x + [sep] + (name + (JS + b));
    UnhashStep(left + (JS + b), left, b);
    WithoutHashKeepsName(x, sep, name);
  }

  /** The build hash of an asset name does not count, wherever the name stands in the frame. */
  lemma {:induction false} HashDoesNotCount(x: string, h: string, h': string, b: string)
    requires IsHash(h) && IsHash(h')
    ensures Unhash(Hashed(x, h, b)) == Unhash(Hashed(x, h', b))
    decreases |x|
  {
    if Find(x, JS).None? {
      UnhashLast(x, h, b);
      UnhashLast(x, h', b);
    } else {
      var left, right := ReplaceStep(x, JS, "");
      Assoc(left, JS, right);
      UnhashEarlier(x, h, b, left, right);
      UnhashEarlier(x, h', b, left, right);
      HashDoesNotCount(right, h, h', b);
    }
  }

  // ---------- the top frames of a stack ----------

  predicate IsFrame(line: string) {
    Contains(line, JS) || "at " <= TrimStart(line)
  }

  /** The first `n` frames, trimmed and without hashes. */
  function Frames(lines: seq<string>, n: nat): seq<string> {
    if lines == [] || n == 0 then []
    else if IsFrame(lines[0]) then [Unhash(Trim(lines[0]))] + Frames(lines[1..], n - 1)
    else Frames(lines[1..], n)
  }

  /** The frame lines of a stack, in order. */
  function FrameLines(lines: seq<string>): seq<string> {
    if lines == [] then []
    else if IsFrame(lines[0]) then [lines[0]] + FrameLines(lines[1..])
    else FrameLines(lines[1..])
  }

  function Cleaned(lines: seq<string>): seq<string> {
    seq(|lines|, i requires 0 <= i < |lines| => Unhash(Trim(lines[i])))
  }

  function First(lines: seq<string>, n: nat): seq<string> {
    if |lines| < n then lines else lines[..n]
  }

  lemma FirstCons(line: string, rest: seq<string>, n: nat)
    requires n > 0
    ensures First([line] + rest, n) == [line] + First(rest, n - 1)
  {
  }

  /** The frames kept are the first `n` frame lines, each trimmed and cleaned. */
  lemma {:induction false} FramesAreTheFirst(lines: seq<string>, n: nat)
    ensures Frames(lines, n) == Cleaned(First(FrameLines(lines), n))
  {
    if lines != [] && n > 0 {
      if IsFrame(lines[0]) {
        var rest := FrameLines(lines[1..]);
        FramesAreTheFirst(lines[1..], n - 1);
        FirstCons(lines[0], rest, n);
        CleanedCons(lines[0], First(rest, n - 1));
      } else {
        FramesAreTheFirst(lines[1..], n);
      }
    }
  }

  lemma CleanedCons(line: string, rest: seq<string>)
    ensures Cleaned([line] + rest) == [Unhash(Trim(line))] + Cleaned(rest)
  {
  }

  function Joined(parts: seq<string>): string {
    if parts == [] then "" else if |parts| == 1 then parts[0] else parts[0] + "|" + Joined(parts[1..])
  }

  function TopFrames(stack: string): string {
    Joined(Frames(Lines(stack), FRAMES))
  }

  lemma {:induction false} TrimStartStops(a: string, c: char, r: string)
    requires !IsSpace(c)
    ensures TrimStart(a + [c] + r) == TrimStart(a) + [c] + r
  {
    if a == "" {
      assert a + [c] + r == [c] + r;
    } else {
      assert (a + [c] + r)[1..] == a[1..] + [c] + r;
      TrimStartStops(a[1..], c, r);
    }
  }

  lemma {:induction false} TrimEndStops(l: string, c: char, b: string)
    requires !IsSpace(c)
    ensures TrimEnd(l + [c] + b) == l + [c] + TrimEnd(b)
  {
    var s := l + [c] + b;
    if b == "" {
      assert s[|s| - 1] == c;
    } else {
      assert s[..|s| - 1] == l + [c] + b[..|b| - 1];
      assert s[|s| - 1] == b[|b| - 1];
      TrimEndStops(l, c, b[..|b| - 1]);
    }
  }

  lemma HashedAtEnd(x: string, h: string, b: string)
    ensures Hashed(x, h, b) == (x + ['-'] + h + ".j") + ['s'] + b
  {
  }

  lemma TrimHashed(x: string, h: string, b: string)
    ensures Trim(Hashed(x, h, b)) == Hashed(TrimStart(x), h, TrimEnd(b))
  {
    TrimStartStops(x, '-', h + (JS + b));
    HashedAtEnd(TrimStart(x), h, b);
    TrimEndStops(TrimStart(x) + ['-'] + h + ".j", 's', b);
    HashedAtEnd(TrimStart(x), h, TrimEnd(b));
  }

  lemma HashedIsFrame(x: string, h: string, b: string)
    ensures IsFrame(Hashed(x, h, b))
  {
    var s := Hashed(x, h, b);
    assert HasAt(s, JS, |x| + 1 + |h|);
  }

  lemma StripHashed(x: string, h: string, b: string)
    ensures StripReturn(Hashed(x, h, b)) == Hashed(x, h, StripReturn(b))
  {
    HashedAtEnd(x, h, b);
    var s := Hashed(x, h, b);
    if b == "" {
      assert s[|s| - 1] == 's';
    } else {
      assert s[|s| - 1] == b[|b| - 1];
    }
  }

  lemma LinesStep(l: string, rest: string)
    requires '\n' !in l
    ensures Lines(l + ("\n" + rest)) == [StripReturn(l)] + Lines(rest)
  {
    BeforeIs(l, '\n', "\n" + rest);
    LinesCut(l + ("\n" + rest), l, rest);
  }

  lemma LinesCut(s: string, l: string, rest: string)
    requires s == l + ("\n" + rest) && Before(s, '\n') == l
    ensures Lines(s) == [StripReturn(l)] + Lines(rest)
  {
    assert s[|l| + 1..] == rest;
  }

  lemma LinesOne(l: string)
    requires '\n' !in l && l != ""
    ensures Lines(l) == [l]
  {
    BeforeIs(l, '\n', "");
    assert l + "" == l;
  }

  lemma HashedSplits(x: string, h: string, l: string, r: string)
    ensures Hashed(x, h, l + r) == Hashed(x, h, l) + r
    ensures Hashed(l + x, h, r) == l + Hashed(x, h, r)
  {
  }

  /** The line a hash stands in. */
  lemma LinesAtHash(x: string, h: string, l: string, r: string)
    requires IsHash(h) && '\n' !in x && '\n' !in l
    ensures Lines(Hashed(x, h, l)) == [Hashed(x, h, l)] + []
    ensures Lines(Hashed(x, h, l + ("\n" + r))) == [Hashed(x, h, StripReturn(l))] + Lines(r)
  {
    assert '\n' !in h;
    LinesOne(Hashed(x, h, l));
    HashedSplits(x, h, l, "\n" + r);
    LinesStep(Hashed(x, h, l), r);
    StripHashed(x, h, l);
  }

  lemma LinesBeforeHash(l: string, x: string, h: string, b: string)
    requires '\n' !in l
    ensures Lines(Hashed(l + ("\n" + x), h, b)) == [StripReturn(l)] + Lines(Hashed(x, h, b))
  {
    HashedSplits(x, h, "\n", b);
    HashedSplits("\n" + x, h, l, b);
    LinesStep(l, Hashed(x, h, b));
  }

  lemma FramesCons(line: string, ls: seq<string>, ls': seq<string>, n: nat)
    requires forall m: nat | m <= n :: Frames(ls, m) == Frames(ls', m)
    ensures Frames([line] + ls, n) == Frames([line] + ls', n)
  {
    assert ([line] + ls)[1..] == ls && ([line] + ls')[1..] == ls';
  }

  lemma HashedFrames(x: string, h: string, h': string, b: string, more: seq<string>, n: nat)
    requires IsHash(h) && IsHash(h')
    ensures Frames([Hashed(x, h, b)] + more, n) == Frames([Hashed(x, h', b)] + more, n)
  {
    HashedIsFrame(x, h, b);
    HashedIsFrame(x, h', b);
    TrimHashed(x, h, b);
    TrimHashed(x, h', b);
    HashDoesNotCount(TrimStart(x), h, h', TrimEnd(b));
  }

  predicate SameFrames(s: string, s': string, n: nat) {
    forall m: nat | m <= n :: Frames(Lines(s), m) == Frames(Lines(s'), m)
  }

  lemma SameFramesBy(s: string, s': string, ls: seq<string>, ls': seq<string>, n: nat)
    requires Lines(s) == ls && Lines(s') == ls' && forall m: nat | m <= n :: Frames(ls, m) == Frames(ls', m)
    ensures SameFrames(s, s', n)
  {
  }

  lemma HashedFramesUpTo(x: string, h: string, h': string, b: string, more: seq<string>, n: nat)
    requires IsHash(h) && IsHash(h')
    ensures forall m: nat | m <= n :: Frames([Hashed(x, h, b)] + more, m) == Frames([Hashed(x, h', b)] + more, m)
  {
    forall m: nat | m <= n
      ensures Frames([Hashed(x, h, b)] + more, m) == Frames([Hashed(x, h', b)] + more, m)
    {
      HashedFrames(x, h, h', b, more, m);
    }
  }

  lemma SameFramesInLine(x: string, h: string, h': string, l: string, r: string, n: nat)
    requires IsHash(h) && IsHash(h') && '\n' !in x && '\n' !in l
    ensures SameFrames(Hashed(x, h, l), Hashed(x, h', l), n)
    ensures SameFrames(Hashed(x, h, l + ("\n" + r)), Hashed(x, h', l + ("\n" + r)), n)
  {
    LinesAtHash(x, h, l, r);
    LinesAtHash(x, h', l, r);
    HashedFramesUpTo(x, h, h', l, [], n);
    SameFramesBy(Hashed(x, h, l), Hashed(x, h', l), [Hashed(x, h, l)] + [], [Hashed(x, h', l)] + [], n);
    var cut := StripReturn(l);
    HashedFramesUpTo(x, h, h', cut, Lines(r), n);
    SameFramesBy(Hashed(x, h, l + ("\n" + r)), Hashed(x, h', l + ("\n" + r)),
                 [Hashed(x, h, cut)] + Lines(r), [Hashed(x, h', cut)] + Lines(r), n);
  }

  lemma SameFramesLater(l: string, x: string, h: string, h': string, b: string, n: nat)
    requires '\n' !in l && SameFrames(Hashed(x, h, b), Hashed(x, h', b), n)
    ensures SameFrames(Hashed(l + ("\n" + x), h, b), Hashed(l + ("\n" + x), h', b), n)
  {
    var ls, ls' := Lines(Hashed(x, h, b)), Lines(Hashed(x, h', b));
    forall m: nat | m <= n
      ensures Frames([StripReturn(l)] + ls, m) == Frames([StripReturn(l)] + ls', m)
    {
      FramesCons(StripReturn(l), ls, ls', m);
    }
    LinesBeforeHash(l, x, h, b);
    LinesBeforeHash(l, x, h', b);
    SameFramesBy(Hashed(l + ("\n" + x), h, b), Hashed(l + ("\n" + x), h', b),
                 [StripReturn(l)] + ls, [StripReturn(l)] + ls', n);
  }

  /** A build hash anywhere in a stack does not count. */
  lemma {:induction false} HashInStackDoesNotCount(x: string, h: string, h': string, b: string, n: nat)
    requires IsHash(h) && IsHash(h')
    ensures SameFrames(Hashed(x, h, b), Hashed(x, h', b), n)
    decreases |x|
  {
    if '\n' in x {
      var l, x' := Cut(x, '\n');
      HashInStackDoesNotCount(x', h, h', b, n);
      SameFramesLater(l, x', h, h', b, n);
    } else if '\n' in b {
      var l, r := Cut(b, '\n');
      SameFramesInLine(x, h, h', l, r, n);
    } else {
      SameFramesInLine(x, h, h', b, "", n);
    }
  }

  // ---------- what lies below the top frames ----------

  function FrameCount(lines: seq<string>): nat {
    if lines == [] then 0 else (if IsFrame(lines[0]) then 1 else 0) + FrameCount(lines[1..])
  }

  lemma {:induction false} LinesAppend(s: string, r: string)
    ensures Lines(s + ("\n" + r)) == Lines(s + "\n") + Lines(r)
    decreases |s|
  {
    if '\n' !in s {
      LinesStep(s, r);
      LinesStep(s, "");
      assert "\n" + "" == "\n";
      assert [StripReturn(s)] + Lines("") == [StripReturn(s)];
    } else {
      var l, t := Cut(s, '\n');
      Regroup3(l, "\n", t, "\n" + r);
      Regroup3(l, "\n", t, "\n");
      LinesStep(l, t + ("\n" + r));
      LinesStep(l, t + "\n");
      LinesAppend(t, r);
      Assoc([StripReturn(l)], Lines(t + "\n"), Lines(r));
    }
  }

  lemma Regroup3(a: string, b: string, c: string, d: string)
    ensures a + (b + c) + d == a + (b + (c + d))
  {
  }

  lemma {:induction false} FramesAppend(a: seq<string>, b: seq<string>, n: nat)
    requires FrameCount(a) >= n
    ensures Frames(a + b, n) == Frames(a, n)
  {
    if a != [] && n > 0 {
      assert (a + b)[1..] == a[1..] + b;
      FramesAppend(a[1..], b, if IsFrame(a[0]) then n - 1 else n);
    }
  }

  /** Nothing after the third frame line counts. */
  lemma DeepFramesDoNotCount(s: string, r: string, r': string)
    requires FrameCount(Lines(s + "\n")) >= FRAMES
    ensures TopFrames(s + ("\n" + r)) == TopFrames(s + ("\n" + r'))
  {
    LinesAppend(s, r);
    LinesAppend(s, r');
    FramesAppend(Lines(s + "\n"), Lines(r), FRAMES);
    FramesAppend(Lines(s + "\n"), Lines(r'), FRAMES);
  }

  // ---------- the basis ----------

  datatype Kind = Render | Unhandled | Rejection | Panic | Playback | Request

  function KindName(k: Kind): string {
    match k
    case Render => "render"
    case Unhandled => "unhandled"
    case Rejection => "rejection"
    case Panic => "panic"
    case Playback => "playback"
    case Request => "request"
  }

  function Get(context: map<string, string>, key: string): string {
    if key in context then context[key] else ""
  }

  /** The text `fingerprint` hashes. */
  function Basis(kind: Kind, message: string, stack: Option<string>, context: map<string, string>): string {
    match kind
    case Request =>
      "request|" + Get(context, "service") + "|" + Numbered(Get(context, "path"), false) + "|" + Get(context, "class")
    case Playback => "playback|" + Get(context, "reason") + "|" + Get(context, "quality")
    case _ =>
      KindName(kind) + "|" + Numbered(message, false) + "|" + TopFrames(if stack.Some? then stack.value else "")
  }

  lemma KindNameInjective(k: Kind, k': Kind)
    requires KindName(k) == KindName(k')
    ensures k == k'
  {
  }

  /** The basis opens with the kind, so errors of different kinds never share one. */
  lemma BasisTellsKindsApart(k: Kind, m: string, s: Option<string>, c: map<string, string>,
                             k': Kind, m': string, s': Option<string>, c': map<string, string>)
    requires k != k'
    ensures Basis(k, m, s, c) != Basis(k', m', s', c')
  {
    BasisOpensWithKind(k, m, s, c);
    BasisOpensWithKind(k', m', s', c');
    if KindName(k) == KindName(k') { KindNameInjective(k, k'); }
  }

  lemma BasisOpensWithKind(k: Kind, m: string, s: Option<string>, c: map<string, string>)
    ensures Before(Basis(k, m, s, c), '|') == KindName(k)
    ensures KindName(k) == match k
                           case Render => "render"
                           case Unhandled => "unhandled"
                           case Rejection => "rejection"
                           case Panic => "panic"
                           case Playback => "playback"
                           case Request => "request"
  {
    var b, n := Basis(k, m, s, c), KindName(k);
    assert n + "|" <= b;
    OpensWith(n, b);
  }

  lemma OpensWith(n: string, b: string)
    requires '|' !in n && n + "|" <= b
    ensures Before(b, '|') == n
  {
    assert b == n + b[|n|..];
    assert b[|n|..][0] == (n + "|")[|n|];
    BeforeIs(n, '|', b[|n|..]);
  }

  /** The same error reported by another build about another track keeps its basis, whatever its
      context. */
  lemma BasisSurvivesRebuild(kind: Kind, a: string, r: string, r': string, m: string,
                             x: string, h: string, h': string, b: string,
                             context: map<string, string>, context': map<string, string>)
    requires kind != Request && kind != Playback
    requires AllDigits(r) && r != "" && AllDigits(r') && r' != ""
    requires IsHash(h) && IsHash(h')
    ensures Basis(kind, a + (r + m), Some(Hashed(x, h, b)), context)
         == Basis(kind, a + (r' + m), Some(Hashed(x, h', b)), context')
  {
    DigitsDoNotCount(a, r, r', m, false);
    HashInStackDoesNotCount(x, h, h', b, FRAMES);
  }

  /** And whatever comes below its third frame. */
  lemma BasisSurvivesDeeperRebuild(kind: Kind, a: string, r: string, r': string, m: string,
                                   x: string, h: string, h': string, b: string, deep: string, deep': string,
                                   context: map<string, string>, context': map<string, string>)
    requires kind != Request && kind != Playback
    requires AllDigits(r) && r != "" && AllDigits(r') && r' != ""
    requires IsHash(h) && IsHash(h') && FrameCount(Lines(Hashed(x, h, b) + "\n")) >= FRAMES
    ensures Basis(kind, a + (r + m), Some(Hashed(x, h, b) + ("\n" + deep)), context)
         == Basis(kind, a + (r' + m), Some(Hashed(x, h', b) + ("\n" + deep')), context')
  {
    DeepFramesDoNotCount(Hashed(x, h, b), deep, deep');
    HashedLonger(x, h, b, "\n" + deep');
    HashedLonger(x, h', b, "\n" + deep');
    BasisSurvivesRebuild(kind, a, r, r', m, x, h, h', b + ("\n" + deep'), context, context');
  }

  lemma HashedLonger(x: string, h: string, b: string, c: string)
    ensures Hashed(x, h, b) + c == Hashed(x, h, b + c)
  {
  }

  // ---------- what a basis tells apart ----------

  lemma {:induction false} NumberedFree(s: string, d: bool, c: char)
    requires c !in s && c != '#'
    ensures c !in Numbered(s, d)
  {
    if s != "" { NumberedFree(s[1..], IsDigit(s[0]), c); }
  }

  lemma {:induction false} TrimEndKeeps(s: string)
    requires s != "" && !IsSpace(s[0])
    ensures TrimEnd(s) != ""
  {
    if IsSpace(s[|s| - 1]) { TrimEndKeeps(s[..|s| - 1]); }
  }

  lemma UnhashKeepsSome(s: string)
    requires s != ""
    ensures Unhash(s) != ""
  {
  }

  lemma ScriptIsFrame(x: string, y: string)
    ensures IsFrame(x + (".js" + y))
  {
    var s := x + (".js" + y);
    assert s[|x|] == '.' && s[|x| + 1] == 'j' && s[|x| + 2] == 's';
    assert HasAt(s, JS, |x|);
  }

  lemma AtIsFrame(a: string, r: string)
    requires AllSpace(a)
    ensures IsFrame(a + ("at " + r))
  {
    TrimStartIs(a, "at " + r);
  }

  /** Only lines that name a script, or start with `at ` after blanks, are frames. */
  lemma FrameParts(line: string) returns (x: string, y: string)
    requires IsFrame(line)
    ensures line == x + (".js" + y) || (AllSpace(x) && line == x + ("at " + y))
  {
    if Contains(line, JS) {
      var i :| 0 <= i <= |line| && HasAt(line, JS, i);
      x, y := line[..i], line[i + 3..];
      assert line[i + 0] == JS[0] && line[i + 1] == JS[1] && line[i + 2] == JS[2];
      assert line[i..i + 3] == JS;
    } else {
      x := TrimStartSplit(line);
      y := TrimStart(line)[3..];
      assert TrimStart(line) == "at " + y;
    }
  }

  lemma FrameStarts(line: string)
    requires IsFrame(line)
    ensures TrimStart(line) != ""
  {
    var x, y := FrameParts(line);
    var a := TrimStartSplit(line);
    assert line[|x|] == '.' || line[|x|] == 'a';
  }

  lemma FrameIsNotEmpty(line: string)
    requires IsFrame(line)
    ensures Unhash(Trim(line)) != ""
  {
    FrameStarts(line);
    TrimEndKeeps(TrimStart(line));
    UnhashKeepsSome(Trim(line));
  }

  predicate AreParts(parts: seq<string>) {
    forall i | 0 <= i < |parts| :: parts[i] != "" && '|' !in parts[i]
  }

  lemma JoinedMore(parts: seq<string>)
    requires AreParts(parts)
    ensures |parts| > 1 ==> Joined(parts) == parts[0] + ['|'] + Joined(parts[1..])
    ensures '|' in Joined(parts) <==> |parts| > 1
  {
    if |parts| > 1 { assert Joined(parts)[|parts[0]|] == '|'; }
  }

  /** Parts that are not empty and hold no bar are read back from their join. */
  lemma {:induction false} JoinedInjective(p: seq<string>, q: seq<string>)
    requires AreParts(p) && AreParts(q) && Joined(p) == Joined(q)
    ensures p == q
  {
    JoinedMore(p);
    JoinedMore(q);
    if |p| > 1 {
      SplitFirst(p[0], '|', Joined(p[1..]), q[0], Joined(q[1..]));
      JoinedInjective(p[1..], q[1..]);
      assert p == [p[0]] + p[1..] && q == [q[0]] + q[1..];
    }
  }

  /** The first three frame lines of a stack, trimmed and cleaned; none without a stack. */
  function TopThree(stack: Option<string>): seq<string> {
    if stack.None? then [] else Cleaned(First(FrameLines(Lines(stack.value)), 3))
  }

  lemma TopFramesAre(stack: Option<string>)
    ensures TopFrames(if stack.Some? then stack.value else "") == Joined(TopThree(stack))
  {
    FramesAreTheFirst(Lines(if stack.Some? then stack.value else ""), FRAMES);
  }

  /** A bar in a message can pass for the one before the frames. */
  lemma BarsCollide(k: Kind, m: string, frame: string, c: map<string, string>, c': map<string, string>)
    requires IsGeneral(k) && IsFrame(frame + "|") && IsTrimmed(frame + "|")
    requires '-' !in frame && '\n' !in frame && forall x | x in frame :: !IsDigit(x)
    ensures Basis(k, m + ("|" + frame), None, c) == Basis(k, m, Some(frame + "|"), c')
  {
    var line := frame + "|";
    NumberedAppend(m, "|" + frame, false);
    NumberedFixes("|" + frame, EndsInDigit(m, false));
    LinesOne(line);
    OneFrame(line);
    UnhashKeepsPlain(line);
    BarMoves(KindName(k), Numbered(m, false), frame);
  }

  lemma BarMoves(a: string, b: string, c: string)
    ensures a + "|" + (b + ("|" + c)) + "|" + "" == a + "|" + b + "|" + (c + "|")
  {
  }

  lemma OneFrame(line: string)
    requires IsFrame(line) && IsTrimmed(line)
    ensures Joined(Frames([line], FRAMES)) == Unhash(line)
  {
    TrimIs("", line, "");
    assert "" + (line + "") == line;
    assert [line][1..] == [];
    assert Frames([line], FRAMES) == [Unhash(line)];
  }

  lemma {:induction false} FrameLinesAre(lines: seq<string>)
    ensures forall l | l in FrameLines(lines) :: IsFrame(l)
  {
    if lines != [] { FrameLinesAre(lines[1..]); }
  }

  lemma TopThreeAreParts(stack: Option<string>)
    requires forall f | f in TopThree(stack) :: '|' !in f
    ensures AreParts(TopThree(stack))
  {
    if stack.Some? {
      var all := FrameLines(Lines(stack.value));
      FrameLinesAre(Lines(stack.value));
      forall i | 0 <= i < |First(all, 3)|
        ensures TopThree(stack)[i] != ""
      {
        assert First(all, 3)[i] == all[i];
        FrameIsNotEmpty(all[i]);
      }
    }
  }

  lemma FieldsEqual(a: string, b: string, c: string, a': string, b': string, c': string)
    requires '|' !in a && '|' !in a' && '|' !in b && '|' !in b'
    ensures a + "|" + b + "|" + c == a' + "|" + b' + "|" + c' <==> a == a' && b == b' && c == c'
  {
    assert a + "|" + b + "|" + c == a + ['|'] + (b + ['|'] + c);
    assert a' + "|" + b' + "|" + c' == a' + ['|'] + (b' + ['|'] + c');
    if a + "|" + b + "|" + c == a' + "|" + b' + "|" + c' {
      SplitFirst(a, '|', b + ['|'] + c, a', b' + ['|'] + c');
      SplitFirst(b, '|', c, b', c');
    }
  }

  predicate IsGeneral(k: Kind) {
    k != Request && k != Playback
  }

  /** Two reports share a basis exactly when kind, message up to digits and top frames agree. */
  lemma BasisIff(k: Kind, m: string, s: Option<string>, c: map<string, string>,
                 k': Kind, m': string, s': Option<string>, c': map<string, string>)
    requires IsGeneral(k) && IsGeneral(k')
    requires '#' !in m && '|' !in m && '#' !in m' && '|' !in m'
    requires forall f | f in TopThree(s) || f in TopThree(s') :: '|' !in f
    ensures Basis(k, m, s, c) == Basis(k', m', s', c') <==>
              k == k' && SameButDigits(m, m') && TopThree(s) == TopThree(s')
  {
    TopFramesAre(s);
    TopFramesAre(s');
    NumberedFree(m, false, '|');
    NumberedFree(m', false, '|');
    KindNamePlain(k);
    KindNamePlain(k');
    FieldsEqual(KindName(k), Numbered(m, false), Joined(TopThree(s)), KindName(k'), Numbered(m', false), Joined(TopThree(s')));
    if KindName(k) == KindName(k') { KindNameInjective(k, k'); }
    OnlyDigitsAreForgotten(m, m');
    TopThreeAreParts(s);
    TopThreeAreParts(s');
    if Joined(TopThree(s)) == Joined(TopThree(s')) { JoinedInjective(TopThree(s), TopThree(s')); }
  }

  lemma KindNamePlain(k: Kind)
    ensures '|' !in KindName(k)
  {
  }

  /** The context holds `value` under `key`; a missing key stands for the empty text. */
  predicate HasField(context: map<string, string>, key: string, value: string) {
    if key in context then context[key] == value else value == ""
  }

  /** Two failed requests share a basis exactly when service, path up to digits and class agree. */
  lemma RequestBasisIff(m: string, s: Option<string>, c: map<string, string>, service: string, path: string, class_: string,
                        m': string, s': Option<string>, c': map<string, string>, service': string, path': string, class': string)
    requires HasField(c, "service", service) && HasField(c, "path", path) && HasField(c, "class", class_)
    requires HasField(c', "service", service') && HasField(c', "path", path') && HasField(c', "class", class')
    requires '|' !in service && '|' !in path && '#' !in path && '|' !in service' && '|' !in path' && '#' !in path'
    ensures Basis(Request, m, s, c) == Basis(Request, m', s', c') <==>
              service == service' && SameButDigits(path, path') && class_ == class'
  {
    NumberedFree(path, false, '|');
    NumberedFree(path', false, '|');
    AfterKind("request|", service, Numbered(path, false), class_, service', Numbered(path', false), class');
    OnlyDigitsAreForgotten(path, path');
  }

  lemma AfterKind(k: string, a: string, b: string, c: string, a': string, b': string, c': string)
    requires '|' !in a && '|' !in a' && '|' !in b && '|' !in b'
    ensures k + a + "|" + b + "|" + c == k + a' + "|" + b' + "|" + c' <==> a == a' && b == b' && c == c'
  {
    assert k + a + "|" + b + "|" + c == k + (a + "|" + b + "|" + c);
    assert k + a' + "|" + b' + "|" + c' == k + (a' + "|" + b' + "|" + c');
    FieldsEqual(a, b, c, a', b', c');
    SameAfter(k, a + "|" + b + "|" + c, a' + "|" + b' + "|" + c');
  }

  lemma SameAfter(k: string, x: string, y: string)
    ensures k + x == k + y <==> x == y
  {
    assert (k + x)[|k|..] == x && (k + y)[|k|..] == y;
  }

  /** Two playback errors share a basis exactly when reason and quality agree. */
  lemma PlaybackBasisIff(m: string, s: Option<string>, c: map<string, string>, reason: string, quality: string,
                         m': string, s': Option<string>, c': map<string, string>, reason': string, quality': string)
    requires HasField(c, "reason", reason) && HasField(c, "quality", quality)
    requires HasField(c', "reason", reason') && HasField(c', "quality", quality')
    requires '|' !in reason && '|' !in reason'
    ensures Basis(Playback, m, s, c) == Basis(Playback, m', s', c') <==> reason == reason' && quality == quality'
  {
    PlaybackText("playback|", reason, quality);
    PlaybackText("playback|", reason', quality');
    SameAfter("playback|", reason + ['|'] + quality, reason' + ['|'] + quality');
    if reason + ['|'] + quality == reason' + ['|'] + quality' {
      SplitFirst(reason, '|', quality, reason', quality');
    }
  }

  lemma PlaybackText(k: string, a: string, b: string)
    ensures k + a + "|" + b == k + (a + ['|'] + b)
  {
  }

  /** Each pass drops one dashed part, so the cleaning is not idempotent. */
  lemma UnhashIsNotIdempotent(a: string, h: string, h': string)
    requires IsHash(a) && IsHash(h) && IsHash(h')
    ensures Unhash(a + "-" + h + "-" + h' + JS) == a + "-" + h + JS
    ensures Unhash(a + "-" + h + JS) == a + JS
  {
    FindSplit(a, '-', h, JS);
    HashedPlain(a, h);
    HashedPlain(a + ['-'] + h, h');
    UnhashLast(a + ['-'] + h, h', "");
    UnhashLast(a, h, "");
  }

  lemma HashedPlain(a: string, h: string)
    ensures Hashed(a, h, "") == a + "-" + h + JS
  {
  }
}
