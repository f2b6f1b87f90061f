/** The identity a worker gives a result: a template whose placeholders are replaced one after
    another. Deduplication of results rests on distinct results having distinct ids. */
module MessageId {
  import opened Text

  datatype Lane = Audio | Lyrics | Transcribe | Encode | Collab | Taste | Ai
  datatype Status = Ok | Empty | Missing | Rejected | Failed
  /** One result of one task. */
  datatype Result = Result(lane: Lane, correlation: string, taskSeq: nat, status: Status)

  const TEMPLATE := "done.{lane}:{correlation}:{task_seq}:{status}"
  const LANE := "{lane}"
  const CORRELATION := "{correlation}"
  const TASK_SEQ := "{task_seq}"
  const STATUS := "{status}"

  function LaneName(l: Lane): string {
    match l
    case Audio => "audio"
    case Lyrics => "lyrics"
    case Transcribe => "transcribe"
    case Encode => "encode"
    case Collab => "collab"
    case Taste => "taste"
    case Ai => "ai"
  }

  function StatusName(s: Status): string {
    match s
    case Ok => "ok"
    case Empty => "empty"
    case Missing => "missing"
    case Rejected => "rejected"
    case Failed => "failed"
  }

  /** `done_msg_id`: four replacements, in this order. */
  function DoneMsgId(r: Result): string {
    var a := Replace(TEMPLATE, LANE, LaneName(r.lane));
    var b := Replace(a, CORRELATION, r.correlation);
    var c := Replace(b, TASK_SEQ, Decimal(r.taskSeq));
    Replace(c, STATUS, StatusName(r.status))
  }

  function Fields(a: string, b: string, c: string, d: string): string {
    a + [':'] + (b + [':'] + (c + [':'] + d))
  }

  /** One simultaneous substitution. */
  function Substituted(r: Result): string {
    Fields("done." + LaneName(r.lane), r.correlation, Decimal(r.taskSeq), StatusName(r.status))
  }

  /** The correlation does not itself name a placeholder that is replaced after it. */
  predicate Clean(correlation: string) {
    !Contains(correlation, TASK_SEQ) && !Contains(correlation, STATUS)
  }

  // ---------- replacing inside the fields ----------

  lemma ReplaceFields(a: string, b: string, c: string, d: string, p: string, w: string)
    requires p != "" && ':' !in p
    ensures Replace(Fields(a, b, c, d), p, w)
         == Fields(Replace(a, p, w), Replace(b, p, w), Replace(c, p, w), Replace(d, p, w))
  {
    ReplaceSplit(a, ':', b + [':'] + (c + [':'] + d), p, w);
    ReplaceSplit(b, ':', c + [':'] + d, p, w);
    ReplaceSplit(c, ':', d, p, w);
  }

  lemma ReplaceAbsent(s: string, p: string, w: string)
    requires p != "" && p[0] !in s
    ensures Replace(s, p, w) == s
  {
  }

  /** A placeholder, told from the others by its first letter. */
  predicate Placeholder(s: string, mark: char) {
    |s| > 1 && s[0] == '{' && s[1] == mark && '{' !in s[1..] && ':' !in s
  }

  lemma Placeholders()
    ensures Placeholder(LANE, 'l') && Placeholder(CORRELATION, 'c')
    ensures Placeholder(TASK_SEQ, 't') && Placeholder(STATUS, 's')
  {
  }

  lemma ReplaceOther(s: string, a: char, p: string, b: char, w: string)
    requires Placeholder(s, a) && Placeholder(p, b) && a != b
    ensures Replace(s, p, w) == s
  {
    assert forall j | 0 < j < |s| :: s[j] == s[1..][j - 1];
  }

  lemma ReplaceAfter(a: string, p: string, w: string)
    requires p != "" && p[0] !in a
    ensures Replace(a + p, p, w) == a + w
  {
    forall j: nat | j < |a|
      ensures !HasAt(a + p, p, j)
    {
      assert (a + p)[j] != p[0];
    }
    HasAtRight(a, p, p, 0);
    FindIs(a + p, p, |a|);
    FindIs(p, p, 0);
    ReplaceSkip(a, p, p, w);
    ReplaceWhole(p, w);
  }

  lemma NamesArePlain(l: Lane, s: Status, n: nat)
    ensures '{' !in "done." + LaneName(l) && ':' !in "done." + LaneName(l)
    ensures '{' !in StatusName(s) && ':' !in StatusName(s)
    ensures '{' !in Decimal(n) && ':' !in Decimal(n)
  {
  }

  lemma TemplateFields()
    ensures TEMPLATE == Fields("done." + LANE, CORRELATION, TASK_SEQ, STATUS)
  {
  }

  lemma FirstPass(head: string, l: string, c: string, t: string, s: string, w: string)
    requires Placeholder(l, 'l') && Placeholder(c, 'c') && Placeholder(t, 't') && Placeholder(s, 's')
    requires '{' !in head
    ensures Replace(Fields(head + l, c, t, s), l, w) == Fields(head + w, c, t, s)
  {
    ReplaceFields(head + l, c, t, s, l, w);
    ReplaceAfter(head, l, w);
    ReplaceOther(c, 'c', l, 'l', w);
    ReplaceOther(t, 't', l, 'l', w);
    ReplaceOther(s, 's', l, 'l', w);
  }

  lemma SecondPass(lane: string, c: string, t: string, s: string, w: string)
    requires Placeholder(c, 'c') && Placeholder(t, 't') && Placeholder(s, 's') && '{' !in lane
    ensures Replace(Fields(lane, c, t, s), c, w) == Fields(lane, w, t, s)
  {
    ReplaceFields(lane, c, t, s, c, w);
    ReplaceAbsent(lane, c, w);
    ReplaceWhole(c, w);
    ReplaceOther(t, 't', c, 'c', w);
    ReplaceOther(s, 's', c, 'c', w);
  }

  lemma LastPasses(lane: string, correlation: string, t: string, s: string, taskSeq: string, status: string)
    requires Placeholder(t, 't') && Placeholder(s, 's') && '{' !in lane && '{' !in taskSeq
    ensures Replace(Replace(Fields(lane, correlation, t, s), t, taskSeq), s, status)
         == Fields(lane, Replace(Replace(correlation, t, taskSeq), s, status), taskSeq, status)
  {
    ReplaceFields(lane, correlation, t, s, t, taskSeq);
    ReplaceAbsent(lane, t, taskSeq);
    ReplaceWhole(t, taskSeq);
    ReplaceOther(s, 's', t, 't', taskSeq);
    ReplaceFields(lane, Replace(correlation, t, taskSeq), taskSeq, s, s, status);
    ReplaceAbsent(lane, s, status);
    ReplaceAbsent(taskSeq, s, status);
    ReplaceWhole(s, status);
  }

  /** The correlation as the last two replacements leave it. */
  function Scanned(r: Result): string {
    Replace(Replace(r.correlation, TASK_SEQ, Decimal(r.taskSeq)), STATUS, StatusName(r.status))
  }

  lemma IdInFields(r: Result)
    ensures DoneMsgId(r) ==
              Fields("done." + LaneName(r.lane), Scanned(r), Decimal(r.taskSeq), StatusName(r.status))
  {
    NamesArePlain(r.lane, r.status, r.taskSeq);
    Placeholders();
    TemplateFields();
    FirstPass("done.", LANE, CORRELATION, TASK_SEQ, STATUS, LaneName(r.lane));
    SecondPass("done." + LaneName(r.lane), CORRELATION, TASK_SEQ, STATUS, r.correlation);
    LastPasses("done." + LaneName(r.lane), r.correlation, TASK_SEQ, STATUS,
               Decimal(r.taskSeq), StatusName(r.status));
  }

  // ---------- when the replacements are one substitution ----------

  function Braces(s: string): nat {
    if s == "" then 0 else (if s[0] == '{' then 1 else 0) + Braces(s[1..])
  }

  lemma {:induction false} BracesAppend(a: string, b: string)
    ensures Braces(a + b) == Braces(a) + Braces(b)
  {
    if a == "" {
      assert a + b == b;
    } else {
      assert (a + b)[1..] == a[1..] + b;
      BracesAppend(a[1..], b);
    }
  }

  lemma {:induction false} NoBraces(s: string)
    requires '{' !in s
    ensures Braces(s) == 0
  {
    if s != "" { NoBraces(s[1..]); }
  }

  /** Replacing a placeholder by brace-free text removes a brace each time. */
  lemma {:induction false} BracesReplace(s: string, p: string, w: string)
    requires p != "" && p[0] == '{' && '{' !in w
    ensures Braces(Replace(s, p, w)) <= Braces(s)
    ensures Find(s, p).Some? ==> Braces(Replace(s, p, w)) < Braces(s)
    decreases |s|
  {
    if Find(s, p).Some? {
      var head, rest := ReplaceStep(s, p, w);
      BracesReplace(rest, p, w);
      NoBraces(w);
      BracesAppend(head + w, Replace(rest, p, w));
      BracesAppend(head, w);
      BracesAppend(head + p, rest);
      BracesAppend(head, p);
    }
  }

  lemma ContainsIffFind(s: string, p: string)
    ensures Contains(s, p) <==> Find(s, p).Some?
  {
  }

  lemma FieldsCancel(a: string, b: string, b': string, c: string, d: string)
    requires Fields(a, b, c, d) == Fields(a, b', c, d)
    ensures b == b'
  {
    var s, s' := Fields(a, b, c, d), Fields(a, b', c, d);
    assert |s| == |s'|;
    assert b == s[|a| + 1..|a| + 1 + |b|];
    assert b' == s'[|a| + 1..|a| + 1 + |b'|];
  }

  /** The later replacements leave a correlation alone exactly when it is clean. */
  lemma ScannedClean(r: Result)
    ensures Scanned(r) == r.correlation <==> Clean(r.correlation)
  {
    var taskSeq, status := Decimal(r.taskSeq), StatusName(r.status);
    NamesArePlain(r.lane, r.status, r.taskSeq);
    ContainsIffFind(r.correlation, TASK_SEQ);
    ContainsIffFind(r.correlation, STATUS);
    BracesReplace(r.correlation, TASK_SEQ, taskSeq);
    BracesReplace(Replace(r.correlation, TASK_SEQ, taskSeq), STATUS, status);
  }

  /** The four replacements in sequence are one simultaneous substitution exactly when the
      correlation contains neither of the two later placeholders. */
  lemma SequentialIsSimultaneous(r: Result)
    ensures DoneMsgId(r) == Substituted(r) <==> Clean(r.correlation)
  {
    IdInFields(r);
    ScannedClean(r);
    if DoneMsgId(r) == Substituted(r) {
      FieldsCancel("done." + LaneName(r.lane), Scanned(r), r.correlation, Decimal(r.taskSeq), StatusName(r.status));
    }
  }

  /** The id of every result with a clean correlation, written out. */
  lemma IdText(r: Result)
    requires Clean(r.correlation)
    ensures DoneMsgId(r) == "done." + (match r.lane
                                       case Audio => "audio"
                                       case Lyrics => "lyrics"
                                       case Transcribe => "transcribe"
                                       case Encode => "encode"
                                       case Collab => "collab"
                                       case Taste => "taste"
                                       case Ai => "ai")
                            + [':'] + (r.correlation + [':'] + (Decimal(r.taskSeq) + [':'] + (match r.status
                                       case Ok => "ok"
                                       case Empty => "empty"
                                       case Missing => "missing"
                                       case Rejected => "rejected"
                                       case Failed => "failed")))
  {
    SequentialIsSimultaneous(r);
  }

  // ---------- distinct results, distinct ids ----------

  lemma LaneNameInjective(l: Lane, l': Lane)
    requires LaneName(l) == LaneName(l')
    ensures l == l'
  {
  }

  lemma StatusNameInjective(s: Status, s': Status)
    requires StatusName(s) == StatusName(s')
    ensures s == s'
  {
  }

  lemma FieldsInjective(a: string, b: string, c: string, d: string, a': string, b': string, c': string, d': string)
    requires Fields(a, b, c, d) == Fields(a', b', c', d')
    requires ':' !in a && ':' !in a' && ':' !in c && ':' !in c' && ':' !in d && ':' !in d'
    ensures a == a' && b == b' && c == c' && d == d'
  {
    SplitFirst(a, ':', b + [':'] + (c + [':'] + d), a', b' + [':'] + (c' + [':'] + d'));
    assert b + [':'] + (c + [':'] + d) == (b + [':'] + c) + [':'] + d;
    assert b' + [':'] + (c' + [':'] + d') == (b' + [':'] + c') + [':'] + d';
    SplitLast(b + [':'] + c, ':', d, b' + [':'] + c', d');
    SplitLast(b, ':', c, b', c');
  }

  /** Two results share an id exactly when they agree in lane, sequence and status and the last two
      replacements make their correlations equal. */
  lemma SameIdIff(r: Result, r': Result)
    ensures DoneMsgId(r) == DoneMsgId(r') <==>
              r.lane == r'.lane && r.taskSeq == r'.taskSeq && r.status == r'.status && Scanned(r) == Scanned(r')
  {
    IdInFields(r);
    IdInFields(r');
    if DoneMsgId(r) == DoneMsgId(r') {
      NamesArePlain(r.lane, r.status, r.taskSeq);
      NamesArePlain(r'.lane, r'.status, r'.taskSeq);
      FieldsInjective("done." + LaneName(r.lane), Scanned(r), Decimal(r.taskSeq), StatusName(r.status),
                      "done." + LaneName(r'.lane), Scanned(r'), Decimal(r'.taskSeq), StatusName(r'.status));
      SuffixEqual("done.", LaneName(r.lane), LaneName(r'.lane));
      LaneNameInjective(r.lane, r'.lane);
      StatusNameInjective(r.status, r'.status);
      DecimalInjective(r.taskSeq, r'.taskSeq);
    }
  }

  lemma SuffixEqual(a: string, b: string, c: string)
    requires a + b == a + c
    ensures b == c
  {
    assert b == (a + b)[|a|..] && c == (a + c)[|a|..];
  }

  /** Equal ids of clean correlations force equal results, even when they contain the separator. */
  lemma CleanIdsDiffer(r: Result, r': Result)
    requires Clean(r.correlation) && Clean(r'.correlation)
    requires DoneMsgId(r) == DoneMsgId(r')
    ensures r == r'
  {
    SameIdIff(r, r');
    ScannedClean(r);
    ScannedClean(r');
  }

  // ---------- no replacement makes a placeholder ----------

  /** Braces stand only at the two ends. */
  predicate Braced(p: string) {
    |p| > 1 && p[|p| - 1] == '}' && forall i | 0 <= i < |p| :: (p[i] == '{' <==> i == 0) && (p[i] == '}' ==> i == |p| - 1)
  }

  lemma BracedPlaceholders()
    ensures Braced(TASK_SEQ) && Braced(STATUS)
  {
  }

  predicate NoBrace(w: string) {
    '{' !in w && '}' !in w
  }

  /** An occurrence in front of brace-free text ends before it, and one behind it starts after it. */
  lemma HasAtBeforePlain(a: string, w: string, q: string, j: nat)
    requires Braced(q) && NoBrace(w) && HasAt(a + w, q, j)
    ensures HasAt(a, q, j)
  {
    assert (a + w)[j + (|q| - 1)] == q[|q| - 1];
    assert forall k | 0 <= k < |a + w| :: (a + w)[k] == if k < |a| then a[k] else w[k - |a|];
  }

  lemma HasAtAfterPlain(w: string, b: string, q: string, j: nat)
    requires Braced(q) && NoBrace(w) && HasAt(w + b, q, j)
    ensures j >= |w| && HasAt(b, q, j - |w|)
  {
    assert (w + b)[j + 0] == q[0];
    assert forall k | 0 <= k < |w| :: (w + b)[k] == w[k];
    HasAtRight(w, b, q, j - |w|);
  }

  /** A text with a character the pattern lacks, put between two others. */
  lemma HasAtAround(a: string, w: string, b: string, q: string, c: char, j: nat)
    requires Braced(q) && NoBrace(w) && c in w && c !in q && HasAt(a + w + b, q, j)
    ensures HasAt(a, q, j) || (j >= |a| + |w| && HasAt(b, q, j - |a| - |w|))
  {
    var l, r := Cut(w, c);
    assert a + w + b == (a + l) + [c] + (r + b);
    assert NoBrace(l) && NoBrace(r) by {
      assert forall x | x in l || x in r :: x in w;
    }
    HasAtSplit(a + l, c, r + b, q, j);
    if j <= |a + l| {
      HasAtBeforePlain(a, l, q, j);
    } else {
      HasAtAfterPlain(r, b, q, j - |a + l| - 1);
      assert |w| == |l| + 1 + |r|;
    }
  }

  lemma ContainsRight(a: string, b: string, q: string)
    ensures Contains(b, q) ==> Contains(a + b, q)
  {
    if Contains(b, q) {
      var k :| 0 <= k <= |b| && HasAt(b, q, k);
      HasAtRight(a, b, q, k);
      assert HasAt(a + b, q, |a| + k);
    }
  }

  lemma HasAtLeft(a: string, b: string, q: string, j: nat)
    requires HasAt(a, q, j)
    ensures HasAt(a + b, q, j)
  {
  }

  /** Replacing `p` by brace-free text that no placeholder can hold leaves no `p`, and no other
      placeholder that was not there. */
  lemma {:induction false} NoNewPlaceholder(s: string, p: string, w: string, q: string, c: char)
    requires Braced(p) && Braced(q) && NoBrace(w) && c in w && c !in q
    requires q == p || !Contains(s, q)
    ensures !Contains(Replace(s, p, w), q)
    decreases |s|
  {
    if Find(s, p).Some? {
      var head, rest := ReplaceStep(s, p, w);
      ContainsRight(head + p, rest, q);
      NoNewPlaceholder(rest, p, w, q, c);
      var after := Replace(rest, p, w);
      forall j | 0 <= j <= |head + w + after|
        ensures !HasAt(head + w + after, q, j)
      {
        if HasAt(head + w + after, q, j) {
          HasAtAround(head, w, after, q, c, j);
          if HasAt(head, q, j) {
            HasAtLeft(head, p + rest, q, j);
            Assoc(head, p, rest);
          }
        }
      }
    }
  }

  /** A character of the status that no placeholder holds. */
  function StatusMark(s: Status): char {
    match s
    case Ok => 'o'
    case Empty => 'm'
    case Missing => 'm'
    case Rejected => 'r'
    case Failed => 'f'
  }

  lemma Marks(s: Status, n: nat)
    ensures StatusMark(s) in StatusName(s) && StatusMark(s) !in TASK_SEQ && StatusMark(s) !in STATUS
    ensures NoBrace(StatusName(s)) && NoBrace(Decimal(n))
    ensures Decimal(n)[0] in Decimal(n) && Decimal(n)[0] !in TASK_SEQ
  {
    var name := StatusName(s);
    assert name[0] == StatusMark(s) || name[1] == StatusMark(s);
    var d := Decimal(n);
    assert IsDigit(d[0]);
  }

  lemma ScannedIsClean(r: Result)
    ensures Clean(Scanned(r))
  {
    var taskSeq, status, mark := Decimal(r.taskSeq), StatusName(r.status), StatusMark(r.status);
    var once := Replace(r.correlation, TASK_SEQ, taskSeq);
    BracedPlaceholders();
    Marks(r.status, r.taskSeq);
    NoNewPlaceholder(r.correlation, TASK_SEQ, taskSeq, TASK_SEQ, taskSeq[0]);
    NoNewPlaceholder(once, STATUS, status, TASK_SEQ, mark);
    NoNewPlaceholder(once, STATUS, status, STATUS, mark);
  }

  /** Every other correlation shares its id with a clean one: the text it is rewritten to. */
  lemma PlaceholderCollides(r: Result)
    requires !Clean(r.correlation)
    ensures var r' := r.(correlation := Scanned(r));
            r' != r && Clean(r'.correlation) && DoneMsgId(r') == DoneMsgId(r)
  {
    var r' := r.(correlation := Scanned(r));
    ScannedIsClean(r);
    ScannedClean(r);
    ScannedClean(r');
    SameIdIff(r, r');
  }

  /** So a result has its id to itself beside those with clean correlations exactly when its own is
      clean. */
  lemma IdsAreInjective(r: Result)
    ensures Clean(r.correlation) <==>
              forall r': Result | Clean(r'.correlation) && DoneMsgId(r') == DoneMsgId(r) :: r' == r
  {
    if Clean(r.correlation) {
      forall r': Result | Clean(r'.correlation) && DoneMsgId(r') == DoneMsgId(r)
        ensures r' == r
      {
        CleanIdsDiffer(r, r');
      }
    } else {
      PlaceholderCollides(r);
    }
  }
}
