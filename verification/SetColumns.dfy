/** The scanner that reads the columns of an UPDATE's SET list out of a trigger body. It must see
    through nested parentheses, and stop where the list ends. */
module SetColumns {
  import opened Text

  /** `\w`, on ASCII. */
  predicate IsWord(c: char) {
    'a' <= c <= 'z' || 'A' <= c <= 'Z' || IsDigit(c) || c == '_'
  }

  const KEYWORDS := [" where", " from", " returning"]

  /** `k\b` matches at `i`. */
  predicate KeywordAt(s: string, k: string, i: nat) {
    HasAt(s, k, i) && (i + |k| == |s| || !IsWord(s[i + |k|]))
  }

  /** `END`: the list ends here. */
  predicate EndAt(s: string, i: nat)
    requires i < |s|
  {
    s[i] == ';' || exists k | k in KEYWORDS :: KeywordAt(s, k, i)
  }

  /** The parts between the commas and the end of the list, at depth zero. */
  function Scan(text: string, i: nat, start: nat, depth: int): seq<string>
    requires start <= i <= |text|
    decreases |text| - i
  {
    if i == |text| then [text[start..]]
    else if text[i] == '(' then Scan(text, i + 1, start, depth + 1)
    else if text[i] == ')' then Scan(text, i + 1, start, depth - 1)
    else if depth == 0 && text[i] == ',' then [text[start..i]] + Scan(text, i + 1, i + 1, depth)
    else if depth == 0 && EndAt(text, i) then [text[start..i]]
    else Scan(text, i + 1, start, depth)
  }

  function SkipBlanks(s: string): string {
    if s != "" && IsBlank(s[0]) then SkipBlanks(s[1..]) else s
  }

  function Word(s: string): (w: string)
    ensures w <= s
  {
    if s == "" || !IsWord(s[0]) then "" else [s[0]] + Word(s[1..])
  }

  /** `\s*(\w+)\s*=`: the column a part assigns. */
  function Column(part: string): Option<string> {
    var s := SkipBlanks(part);
    var w := Word(s);
    if w != "" && "=" <= SkipBlanks(s[|w|..]) then Some(w) else None
  }

  function Columns(parts: seq<string>): seq<string> {
    if parts == [] then []
    else (match Column(parts[0]) case None => [] case Some(c) => [c]) + Columns(parts[1..])
  }

  function SetColumns(text: string, pos: nat): seq<string>
    requires pos <= |text|
  {
    Columns(Scan(text, pos, pos, 0))
  }

  lemma {:induction false} ColumnsAppend(a: seq<string>, b: seq<string>)
    ensures Columns(a + b) == Columns(a) + Columns(b)
  {
    if a == [] {
      assert a + b == b;
    } else {
      assert (a + b)[1..] == a[1..] + b;
      ColumnsAppend(a[1..], b);
    }
  }

  /** `set_columns`. */
  method SetColumnsOf(text: string, pos: nat) returns (columns: seq<string>)
    requires pos <= |text|
    ensures columns == SetColumns(text, pos)
  {
    var depth, start, out, i := 0, pos, [], pos;
    var ended := false;
    while i < |text|
      invariant pos <= start <= i <= |text|
      invariant out + Scan(text, i, start, depth) == Scan(text, pos, pos, 0)
    {
      var c := text[i];
      if c == '(' {
        depth := depth + 1;
      } else if c == ')' {
        depth := depth - 1;
      } else if depth == 0 && (c == ',' || EndAt(text, i)) {
        if c == ',' {
          Assoc(out, [text[start..i]], Scan(text, i + 1, i + 1, depth));
        }
        out := out + [text[start..i]];
        if c != ',' {
          ended := true;
          break;
        }
        start := i + 1;
      }
      i := i + 1;
    }
    if !ended {
      out := out + [text[start..]];
    }
    columns := Columns(out);
  }

  // ---------- printing a SET list ----------

  datatype Assignment = Assignment(column: string, value: string)

  function Assign(a: Assignment): string {
    a.column + " = " + a.value
  }

  function More(as_: seq<Assignment>): string {
    if as_ == [] then "" else ", " + Assign(as_[0]) + More(as_[1..])
  }

  function SetList(as_: seq<Assignment>): string {
    if as_ == [] then "" else Assign(as_[0]) + More(as_[1..])
  }

  function Names(as_: seq<Assignment>): seq<string> {
    if as_ == [] then [] else [as_[0].column] + Names(as_[1..])
  }

  /** Scanned from depth `depth`, the text closes its parentheses and shows no comma and no end of
      the list outside them. */
  predicate Quiet(s: string, i: nat, depth: int)
    requires i <= |s|
    decreases |s| - i
  {
    if i == |s| then depth == 0
    else if s[i] == '(' then Quiet(s, i + 1, depth + 1)
    else if s[i] == ')' then Quiet(s, i + 1, depth - 1)
    else (depth == 0 ==> s[i] != ',' && !EndAt(s, i)) && Quiet(s, i + 1, depth)
  }

  predicate IsColumn(s: string) {
    s != "" && forall i | 0 <= i < |s| ::
      'a' <= s[i] <= 'z' || 'A' <= s[i] <= 'Z' || '0' <= s[i] <= '9' || s[i] == '_'
  }

  predicate WellFormed(a: Assignment) {
    IsColumn(a.column) && Quiet(" " + a.value, 0, 0)
  }

  /** What may follow the list: nothing, or something that ends it. */
  predicate Ends(tail: string) {
    tail == "" || tail[0] == ';' || StartsWith(tail, " where") || StartsWith(tail, " from") || StartsWith(tail, " returning")
  }

  /** The text starts with a whole word. */
  predicate StartsWith(s: string, word: string) {
    word <= s && (|s| == |word| || !IsColumn([s[|word|]]))
  }

  lemma WordChars(c: char)
    ensures IsWord(c) <==> IsColumn([c])
  {
    if IsColumn([c]) { assert [c][0] == c; }
  }

  lemma StartIsKeyword(s: string, k: string)
    requires StartsWith(s, k) && k != "" && k in KEYWORDS
    ensures EndAt(s, 0)
  {
    assert |s| > |k| ==> !IsWord(s[|k|]) by {
      if |s| > |k| { WordChars(s[|k|]); }
    }
    assert forall j | 0 <= j < |k| :: s[0 + j] == k[j];
    assert KeywordAt(s, k, 0);
  }

  lemma EndsAtOnce(tail: string)
    requires Ends(tail) && tail != ""
    ensures EndAt(tail, 0)
  {
    var w, f, r := " where", " from", " returning";
    assert KEYWORDS[0] == w && KEYWORDS[1] == f && KEYWORDS[2] == r;
    if StartsWith(tail, w) { StartIsKeyword(tail, w); }
    if StartsWith(tail, f) { StartIsKeyword(tail, f); }
    if StartsWith(tail, r) { StartIsKeyword(tail, r); }
  }

  predicate Fenced(r: string) {
    r == "" || !IsWord(r[0])
  }

  // ---------- the end of the list seen from inside a text ----------

  lemma KeywordLetters(k: string)
    requires k in KEYWORDS
    ensures k != "" && k[0] == ' ' && forall j | 1 <= j < |k| :: IsWord(k[j])
  {
  }

  lemma KeywordInside(pre: string, s: string, r: string, k: string, i: nat)
    requires k in KEYWORDS && Fenced(r) && i < |s|
    ensures KeywordAt(pre + s + r, k, |pre| + i) <==> KeywordAt(s, k, i)
  {
    var text := pre + s + r;
    KeywordLetters(k);
    assert forall j | 0 <= j < |s| :: text[|pre| + j] == s[j];
    assert forall j | 0 <= j < |r| :: text[|pre| + |s| + j] == r[j];
    if i + |k| > |s| && |r| > 0 {
      assert text[|pre| + i + (|s| - i)] == r[0] != k[|s| - i];
    }
  }

  lemma EndInside(pre: string, s: string, r: string, i: nat)
    requires Fenced(r) && i < |s|
    ensures EndAt(pre + s + r, |pre| + i) <==> EndAt(s, i)
  {
    var text := pre + s + r;
    assert text[|pre| + i] == s[i];
    forall k | k in KEYWORDS
      ensures KeywordAt(text, k, |pre| + i) <==> KeywordAt(s, k, i)
    {
      KeywordInside(pre, s, r, k, i);
    }
  }

  /** Scanning passes over a quiet text: from place `p` inside it to its end `q`. */
  lemma {:induction false} ScanQuiet(text: string, pre: string, s: string, r: string, i: nat, p: nat, q: nat,
                                     start: nat, depth: int)
    requires text == pre + s + r && p == |pre| + i && q == |pre| + |s|
    requires i <= |s| && Quiet(s, i, depth) && Fenced(r) && start <= p
    ensures p <= q <= |text| && Scan(text, p, start, depth) == Scan(text, q, start, 0)
    decreases |s| - i
  {
    if i < |s| {
      assert text[p] == s[i];
      EndInside(pre, s, r, i);
      ScanQuiet(text, pre, s, r, i + 1, p + 1, q, start,
        if s[i] == '(' then depth + 1 else if s[i] == ')' then depth - 1 else depth);
    }
  }

  // ---------- one assignment ----------

  predicate IsKeyword(column: string) {
    column == "where" || column == "from" || column == "returning"
  }

  lemma KeywordsAre(column: string)
    ensures IsKeyword(column) <==> " " + column in KEYWORDS
  {
    var w, f, r := " where", " from", " returning";
    assert KEYWORDS[0] == w && KEYWORDS[1] == f && KEYWORDS[2] == r;
    assert " " + "where" == w && " " + "from" == f && " " + "returning" == r;
    assert (" " + column)[1..] == column && w[1..] == "where" && f[1..] == "from" && r[1..] == "returning";
  }

  /** A space and a column look like the end of the list exactly when the column is a keyword. */
  lemma KeywordHead(column: string, k: string, r: string)
    requires IsColumn(column) && k in KEYWORDS && r != "" && !IsWord(r[0])
    ensures KeywordAt(" " + column + r, k, 0) <==> " " + column == k
  {
    var s, c := " " + column + r, " " + column;
    KeywordLetters(k);
    assert forall j | 0 <= j < |c| :: s[j] == c[j];
    assert s[|c|] == r[0];
    if |k| == |c| {
      if k != c {
        var j :| 0 <= j < |k| && k[j] != c[j];
        assert s[0 + j] != k[j];
      }
    } else if |k| < |c| {
      assert s[|k|] == column[|k| - 1];
    } else if |k| <= |s| {
      assert s[0 + |c|] != k[|c|];
    }
  }

  lemma EndHead(column: string, r: string)
    requires IsColumn(column) && r != "" && !IsWord(r[0])
    ensures EndAt(" " + column + r, 0) <==> IsKeyword(column)
  {
    KeywordsAre(column);
    forall k | k in KEYWORDS
      ensures KeywordAt(" " + column + r, k, 0) <==> " " + column == k
    {
      KeywordHead(column, k, r);
    }
  }

  predicate Calm(s: string, i: nat)
    requires i < |s|
  {
    s[i] != '(' && s[i] != ')' && s[i] != ',' && !EndAt(s, i)
  }

  lemma {:induction false} CalmIsQuiet(s: string, i: nat)
    requires i <= |s| && forall j | i <= j < |s| :: Calm(s, j)
    ensures Quiet(s, i, 0)
    decreases |s| - i
  {
    if i < |s| {
      assert Calm(s, i);
      CalmIsQuiet(s, i + 1);
    }
  }

  lemma NoEndAt(s: string, i: nat)
    requires i < |s| && s[i] != ';' && (s[i] == ' ' ==> i + 1 < |s| && !IsWord(s[i + 1]))
    ensures !EndAt(s, i)
  {
    forall k | k in KEYWORDS
      ensures !KeywordAt(s, k, i)
    {
      KeywordLetters(k);
      assert |k| > 1;
      if i + |k| <= |s| {
        if s[i] == ' ' { assert s[i + 1] != k[1]; } else { assert s[i + 0] != k[0]; }
      }
    }
  }

  lemma HeadIsQuiet(lead: string, column: string)
    requires IsColumn(column) && (lead == "" || (lead == " " && !IsKeyword(column)))
    ensures Quiet(lead + column + " =", 0, 0)
  {
    var s := lead + column + " =";
    forall j | 0 <= j < |s|
      ensures Calm(s, j)
    {
      if j == 0 && lead == " " {
        EndHead(column, " =");
      } else {
        NoEndAt(s, j);
      }
    }
    CalmIsQuiet(s, 0);
  }

  lemma AssignSplit(pre: string, lead: string, column: string, value: string, r: string)
    ensures var head, text := lead + column + " =", pre + (lead + (column + " = " + value)) + r;
            text == pre + head + ((" " + value) + r) && text == (pre + head) + (" " + value) + r
  {
  }

  lemma ScanAssign(text: string, pre: string, lead: string, a: Assignment, r: string, p: nat, q: nat, start: nat)
    requires text == pre + (lead + Assign(a)) + r && p == |pre| && q == p + |lead + Assign(a)|
    requires WellFormed(a) && (lead == "" || (lead == " " && !IsKeyword(a.column)))
    requires Fenced(r) && start <= p
    ensures p <= q <= |text| && Scan(text, p, start, 0) == Scan(text, q, start, 0)
  {
    var head, value := lead + a.column + " =", " " + a.value;
    AssignSplit(pre, lead, a.column, a.value, r);
    HeadIsQuiet(lead, a.column);
    ScanTwo(text, pre, head, value, r, p, p + |head|, q, start);
  }

  lemma ScanTwo(text: string, pre: string, head: string, value: string, r: string, p: nat, m: nat, q: nat, start: nat)
    requires text == pre + head + (value + r) && text == (pre + head) + value + r
    requires p == |pre| && m == p + |head| && q == m + |value| && start <= p
    requires Quiet(head, 0, 0) && Quiet(value, 0, 0) && Fenced(value + r) && Fenced(r)
    ensures p <= q <= |text| && Scan(text, p, start, 0) == Scan(text, q, start, 0)
  {
    ScanQuiet(text, pre, head, value + r, 0, p, m, start, 0);
    ScanQuiet(text, pre + head, value, r, 0, m, q, start, 0);
  }

  lemma {:induction false} WordIs(w: string, r: string)
    requires (forall i | 0 <= i < |w| :: IsWord(w[i])) && Fenced(r)
    ensures Word(w + r) == w
  {
    if w == "" {
      assert w + r == r;
    } else {
      assert (w + r)[1..] == w[1..] + r;
      WordIs(w[1..], r);
    }
  }

  predicate AllBlank(s: string) {
    forall i | 0 <= i < |s| :: IsBlank(s[i])
  }

  lemma {:induction false} SkipBlanksIs(a: string, r: string)
    requires AllBlank(a) && (r == "" || !IsBlank(r[0]))
    ensures SkipBlanks(a + r) == r
  {
    if a == "" {
      assert a + r == r;
    } else {
      assert (a + r)[1..] == a[1..] + r;
      SkipBlanksIs(a[1..], r);
    }
  }

  /** Of every part the column is the word it starts with, blanks apart, exactly when the first thing
      after it is an equals sign. */
  lemma ColumnIs(a: string, column: string, b: string, r: string)
    requires AllBlank(a) && AllBlank(b) && IsColumn(column)
    requires r == "" || (!IsBlank(r[0]) && (b == "" ==> !IsColumn([r[0]])))
    ensures Column(a + (column + (b + r))) == if r != "" && r[0] == '=' then Some(column) else None
  {
    var s := column + (b + r);
    assert !IsBlank(s[0]);
    SkipBlanksIs(a, s);
    if b != "" { assert (b + r)[0] == b[0]; } else if r != "" { WordChars(r[0]); }
    WordIs(column, b + r);
    assert s[|column|..] == b + r;
    SkipBlanksIs(b, r);
  }

  lemma ColumnOfAssign(lead: string, a: Assignment)
    requires IsColumn(a.column) && (lead == "" || lead == " ")
    ensures Column(lead + Assign(a)) == Some(a.column)
  {
    var s := Assign(a);
    assert s == a.column + (" " + ("= " + a.value));
    SkipLead(lead, s);
    WordIs(a.column, " " + ("= " + a.value));
    assert s[|a.column|..] == " " + ("= " + a.value);
    SkipLead(" ", "= " + a.value);
  }

  lemma SkipLead(lead: string, s: string)
    requires lead == "" || lead == " "
    requires s != "" && !IsBlank(s[0])
    ensures SkipBlanks(lead + s) == s
  {
    assert (lead + s)[|lead|..] == s;
  }

  // ---------- the whole list ----------

  /** The assignments before the first column that is a keyword. */
  function UpToKeyword(as_: seq<Assignment>): seq<Assignment> {
    if as_ == [] || IsKeyword(as_[0].column) then [] else [as_[0]] + UpToKeyword(as_[1..])
  }

  lemma EndRight(pre: string, tail: string)
    requires tail != ""
    ensures EndAt(pre + tail, |pre|) <==> EndAt(tail, 0)
  {
    assert pre + tail + "" == pre + tail;
    EndInside(pre, tail, "", 0);
  }

  lemma MoreIsFenced(as_: seq<Assignment>, tail: string)
    requires Ends(tail)
    ensures Fenced(More(as_) + tail)
  {
    if as_ == [] {
      assert More(as_) + tail == tail;
      if tail != "" { EndsAtOnce(tail); }
      if tail != "" && tail[0] != ';' {
        var k :| k in KEYWORDS && KeywordAt(tail, k, 0);
        KeywordLetters(k);
        assert tail[0 + 0] == k[0];
      }
    }
  }

  lemma ScanEnd(pre: string, tail: string, start: nat)
    requires Ends(tail) && start <= |pre|
    ensures Scan(pre + tail, |pre|, start, 0) == [pre[start..]]
  {
    MoreIsFenced([], tail);
    if tail == "" {
      assert pre + tail == pre;
    } else {
      EndsAtOnce(tail);
      EndRight(pre, tail);
      var text := pre + tail;
      assert text[|pre|] == tail[0];
      assert text[start..|pre|] == pre[start..];
      if tail[0] != ';' {
        var k :| k in KEYWORDS && KeywordAt(tail, k, 0);
        KeywordLetters(k);
        assert tail[0 + 0] == k[0];
      }
    }
  }

  lemma ScanComma(pre: string, r: string, start: nat)
    requires start <= |pre|
    ensures var text := pre + "," + r;
            Scan(text, |pre|, start, 0) == [pre[start..]] + Scan(text, |pre| + 1, |pre| + 1, 0)
  {
    var text := pre + "," + r;
    assert text[|pre|] == ',' && text[start..|pre|] == pre[start..];
  }

  lemma ScanStops(text: string, p: nat)
    requires p < |text| && EndAt(text, p) && text[p] == ' '
    ensures Scan(text, p, p, 0) == [""]
  {
    assert text[p..p] == "";
  }

  lemma ScanKeyword(text: string, pre: string, column: string, r: string, p: nat)
    requires text == pre + (" " + column + r) && p == |pre|
    requires IsColumn(column) && IsKeyword(column) && r != "" && !IsWord(r[0])
    ensures Scan(text, p, p, 0) == [""]
  {
    EndHead(column, r);
    EndRight(pre, " " + column + r);
    ScanStops(text, p);
  }

  lemma MoreSplit(pre: string, column: string, value: string, more: string, tail: string)
    ensures var assign := column + " = " + value;
            var text := pre + (", " + assign + more) + tail;
            && text == pre + "," + ((" " + assign) + (more + tail))
            && text == (pre + ",") + (" " + assign) + (more + tail)
            && text == ((pre + ",") + (" " + assign)) + more + tail
            && text == (pre + ",") + (" " + column + (" = " + value + (more + tail)))
  {
  }

  lemma OneColumn(lead: string, a: Assignment)
    requires IsColumn(a.column) && (lead == "" || lead == " ")
    ensures Columns([lead + Assign(a)]) == [a.column]
  {
    ColumnOfAssign(lead, a);
    assert [lead + Assign(a)][1..] == [];
  }

  /** From a comma to the next: the scan goes on unless the column is a keyword. */
  lemma ScanItem(text: string, pre: string, a: Assignment, rest: seq<Assignment>, tail: string, start: nat)
    requires text == pre + (", " + Assign(a) + More(rest)) + tail
    requires Ends(tail) && start <= |pre| && WellFormed(a)
    ensures var comma, next := pre + ",", (pre + ",") + (" " + Assign(a));
            && text == next + More(rest) + tail
            && |next| <= |text|
            && Scan(text, |pre|, start, 0) ==
                 [pre[start..]] + if IsKeyword(a.column) then [""] else Scan(text, |next|, |comma|, 0)
  {
    var comma, next := pre + ",", (pre + ",") + (" " + Assign(a));
    MoreSplit(pre, a.column, a.value, More(rest), tail);
    ScanComma(pre, (" " + Assign(a)) + (More(rest) + tail), start);
    if IsKeyword(a.column) {
      ScanKeyword(text, comma, a.column, " = " + a.value + (More(rest) + tail), |comma|);
    } else {
      MoreIsFenced(rest, tail);
      ScanAssign(text, comma, " ", a, More(rest) + tail, |comma|, |next|, |comma|);
    }
  }

  lemma {:induction false} ScanMore(pre: string, as_: seq<Assignment>, tail: string, start: nat)
    requires Ends(tail) && start <= |pre| && forall a | a in as_ :: WellFormed(a)
    ensures Columns(Scan(pre + More(as_) + tail, |pre|, start, 0)) ==
              Columns([pre[start..]]) + Names(UpToKeyword(as_))
    decreases |as_|
  {
    if as_ == [] {
      assert pre + More(as_) + tail == pre + tail;
      ScanEnd(pre, tail, start);
    } else {
      var a, rest, text := as_[0], as_[1..], pre + More(as_) + tail;
      var comma, next := pre + ",", (pre + ",") + (" " + Assign(a));
      assert WellFormed(a);
      ScanItem(text, pre, a, rest, tail, start);
      if IsKeyword(a.column) {
        ColumnsAppend([pre[start..]], [""]);
        assert Columns([""]) == [];
      } else {
        ColumnsAppend([pre[start..]], Scan(text, |next|, |comma|, 0));
        ScanMore(next, rest, tail, |comma|);
        assert next[|comma|..] == " " + Assign(a);
        OneColumn(" ", a);
      }
    }
  }

  lemma ListSplit(pre: string, assign: string, more: string, tail: string)
    ensures pre + (assign + more) + tail == pre + ("" + assign) + (more + tail)
    ensures pre + (assign + more) + tail == (pre + ("" + assign)) + more + tail
  {
  }

  /** From a printed SET list the scanner reads the columns up to the first keyword column after
      the first, whatever commas and keywords the nested parentheses hold. */
  lemma ScanReadsList(pre: string, as_: seq<Assignment>, tail: string)
    requires Ends(tail) && forall a | a in as_ :: WellFormed(a)
    ensures SetColumns(pre + SetList(as_) + tail, |pre|) ==
              if as_ == [] then [] else [as_[0].column] + Names(UpToKeyword(as_[1..]))
  {
    if as_ == [] {
      assert pre + SetList(as_) + tail == pre + tail;
      ScanEnd(pre, tail, |pre|);
      assert pre[|pre|..] == "" && Columns([""]) == [];
    } else {
      var a, rest := as_[0], as_[1..];
      var next := pre + ("" + Assign(a));
      MoreIsFenced(rest, tail);
      ListSplit(pre, Assign(a), More(rest), tail);
      ScanAssign(pre + SetList(as_) + tail, pre, "", a, More(rest) + tail, |pre|, |next|, |pre|);
      ScanMore(next, rest, tail, |pre|);
      assert next[|pre|..] == "" + Assign(a);
      OneColumn("", a);
    }
  }

  lemma {:induction false} UpToKeywordIsAll(as_: seq<Assignment>)
    ensures Names(UpToKeyword(as_)) == Names(as_) <==> forall a | a in as_ :: !IsKeyword(a.column)
    ensures |Names(UpToKeyword(as_))| <= |Names(as_)|
  {
    if as_ != [] {
      UpToKeywordIsAll(as_[1..]);
      if !IsKeyword(as_[0].column) {
        assert Names(UpToKeyword(as_))[1..] == Names(UpToKeyword(as_[1..]));
        assert Names(as_)[1..] == Names(as_[1..]);
      }
    }
  }

  /** `set_columns` inverts printing exactly when no column after the first is named like a word
      that ends the list. */
  lemma ScanInvertsPrinting(pre: string, as_: seq<Assignment>, tail: string)
    requires Ends(tail) && forall a | a in as_ :: WellFormed(a)
    ensures SetColumns(pre + SetList(as_) + tail, |pre|) == Names(as_) <==>
              as_ == [] || forall a | a in as_[1..] :: !IsKeyword(a.column)
  {
    ScanReadsList(pre, as_, tail);
    if as_ != [] {
      UpToKeywordIsAll(as_[1..]);
      assert ([as_[0].column] + Names(UpToKeyword(as_[1..])))[1..] == Names(UpToKeyword(as_[1..]));
      assert Names(as_)[1..] == Names(as_[1..]);
    }
  }
}
