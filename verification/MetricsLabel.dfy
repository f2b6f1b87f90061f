/** Label values of the exported metrics. Node and slot names come from workers, so a value may hold
    any character; a scraper must read back exactly the value that was written. */
module MetricsLabel {
  import opened Text

  /** `replace` of one character. */
  function ReplaceChar(s: string, c: char, with: string): string {
    if s == "" then "" else (if s[0] == c then with else [s[0]]) + ReplaceChar(s[1..], c, with)
  }

  /** `label`: three replacements in this order. */
  function Label(value: string): string {
    ReplaceChar(ReplaceChar(ReplaceChar(value, '\\', "\\\\"), '"', "\\\""), '\n', "\\n")
  }

  function EscapeChar(c: char): string {
    if c == '\\' then "\\\\" else if c == '"' then "\\\"" else if c == '\n' then "\\n" else [c]
  }

  /** One pass over the characters. */
  function Escape(s: string): string {
    if s == "" then "" else EscapeChar(s[0]) + Escape(s[1..])
  }

  lemma {:induction false} ReplaceCharAppend(a: string, b: string, c: char, with: string)
    ensures ReplaceChar(a + b, c, with) == ReplaceChar(a, c, with) + ReplaceChar(b, c, with)
  {
    if a == "" {
      assert a + b == b;
    } else {
      assert (a + b)[1..] == a[1..] + b;
      ReplaceCharAppend(a[1..], b, c, with);
      Assoc(if a[0] == c then with else [a[0]], ReplaceChar(a[1..], c, with), ReplaceChar(b, c, with));
    }
  }

  lemma {:induction false} ReplaceCharAbsent(s: string, c: char, with: string)
    requires c !in s
    ensures ReplaceChar(s, c, with) == s
  {
    if s != "" { ReplaceCharAbsent(s[1..], c, with); }
  }

  lemma ReplaceCharOne(c: char, with: string)
    ensures ReplaceChar([c], c, with) == with
  {
    assert [c][1..] == "";
  }

  lemma LabelChar(c: char)
    ensures Label([c]) == EscapeChar(c)
  {
    if c == '\\' {
      ReplaceCharOne(c, "\\\\");
      ReplaceCharAbsent("\\\\", '"', "\\\"");
      ReplaceCharAbsent("\\\\", '\n', "\\n");
    } else {
      ReplaceCharAbsent([c], '\\', "\\\\");
      if c == '"' {
        ReplaceCharOne(c, "\\\"");
        ReplaceCharAbsent("\\\"", '\n', "\\n");
      } else {
        ReplaceCharAbsent([c], '"', "\\\"");
        if c == '\n' { ReplaceCharOne(c, "\\n"); } else { ReplaceCharAbsent([c], '\n', "\\n"); }
      }
    }
  }

  lemma {:induction false} LabelAppend(a: string, b: string)
    ensures Label(a + b) == Label(a) + Label(b)
  {
    ReplaceCharAppend(a, b, '\\', "\\\\");
    var x, y := ReplaceChar(a, '\\', "\\\\"), ReplaceChar(b, '\\', "\\\\");
    ReplaceCharAppend(x, y, '"', "\\\"");
    ReplaceCharAppend(ReplaceChar(x, '"', "\\\""), ReplaceChar(y, '"', "\\\""), '\n', "\\n");
  }

  /** The three replacements never escape each other's output. */
  lemma {:induction false} LabelIsEscape(s: string)
    ensures Label(s) == Escape(s)
  {
    if s != "" {
      assert s == [s[0]] + s[1..];
      LabelAppend([s[0]], s[1..]);
      LabelChar(s[0]);
      LabelIsEscape(s[1..]);
    }
  }

  // ---------- reading back ----------

  /** The text exposition format 0.0.4 inside a quoted label value: the value up to the closing quote,
      and the text after it. */
  function ReadQuoted(s: string): Option<(string, string)>
    decreases |s|
  {
    if s == "" || s[0] == '\n' then None
    else if s[0] == '"' then Some(("", s[1..]))
    else if s[0] == '\\' then
      if |s| == 1 then None else
      var c :- Unescape(s[1]);
      var (v, r) :- ReadQuoted(s[2..]);
      Some(([c] + v, r))
    else
      var (v, r) :- ReadQuoted(s[1..]);
      Some(([s[0]] + v, r))
  }

  function Unescape(c: char): Option<char> {
    if c == '\\' then Some('\\') else if c == '"' then Some('"') else if c == 'n' then Some('\n') else None
  }

  lemma ReadEscaped(c: char, t: string)
    ensures ReadQuoted(EscapeChar(c) + t) ==
              match ReadQuoted(t)
              case None => None
              case Some((v, r)) => Some(([c] + v, r))
  {
    var e := EscapeChar(c);
    assert (e + t)[|e|..] == t;
  }

  lemma {:induction false} ReadQuotedEscape(s: string, r: string)
    ensures ReadQuoted(Escape(s) + ("\"" + r)) == Some((s, r))
  {
    if s == "" {
      assert Escape(s) + ("\"" + r) == "\"" + r;
      assert ("\"" + r)[1..] == r;
    } else {
      var t := Escape(s[1..]) + ("\"" + r);
      ReadQuotedEscape(s[1..], r);
      Assoc(EscapeChar(s[0]), Escape(s[1..]), "\"" + r);
      ReadEscaped(s[0], t);
      assert s == [s[0]] + s[1..];
    }
  }

  /** A scraper reads back every label value exactly, and goes on right after its closing quote. */
  lemma LabelReadsBack(value: string, rest: string)
    ensures ReadQuoted(Label(value) + ("\"" + rest)) == Some((value, rest))
  {
    LabelIsEscape(value);
    ReadQuotedEscape(value, rest);
  }

  lemma {:induction false} EscapeHasNoNewline(s: string)
    ensures '\n' !in Escape(s)
  {
    if s != "" { EscapeHasNoNewline(s[1..]); }
  }

  // ---------- a sample line ----------

  /** The labels and the number `NodeSeries::slot` writes after the metric name. */
  function SlotSample(node: string, slot: string, number: string): string {
    "{node=\"" + (Label(node) + ("\"" + (",slot=\"" + (Label(slot) + ("\"" + ("} " + number))))))
  }

  function ReadSlotSample(s: string): Option<(string, string, string)> {
    var a :- Strip(s, "{node=\"");
    var (node, b) :- ReadQuoted(a);
    var c :- Strip(b, ",slot=\"");
    var (slot, d) :- ReadQuoted(c);
    var number :- Strip(d, "} ");
    Some((node, slot, number))
  }

  /** No node or slot name can break a sample: it reads back part by part, */
  lemma SlotSampleReadsBack(node: string, slot: string, number: string)
    ensures ReadSlotSample(SlotSample(node, slot, number)) == Some((node, slot, number))
  {
    var d := "} " + number;
    var c := Label(slot) + ("\"" + d);
    var b := ",slot=\"" + c;
    StripPrefix("{node=\"", Label(node) + ("\"" + b));
    LabelReadsBack(node, b);
    StripPrefix(",slot=\"", c);
    LabelReadsBack(slot, d);
    StripPrefix("} ", number);
  }

  /** and it stays on one line. */
  lemma SlotSampleIsOneLine(node: string, slot: string, number: string)
    requires '\n' !in number
    ensures '\n' !in SlotSample(node, slot, number)
  {
    LabelIsEscape(node);
    LabelIsEscape(slot);
    EscapeHasNoNewline(node);
    EscapeHasNoNewline(slot);
  }
}
