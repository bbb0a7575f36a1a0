/** Command lines as words: the three scanners of the command interface against one split on blanks. */
module WordSplit {
  import opened Options

  const MAX_CMD_WORD_LEN := 64

  predicate Blank(c: char) { c == ' ' || c == '\t' }

  /** Positions `from` up to but not including `upto`. */
  datatype Span = Span(from: nat, upto: nat)

  /** Where the run of non-blanks from `i` ends. */
  function End(s: string, i: nat): (e: nat)
    requires i <= |s|
    ensures i <= e <= |s| && (forall k | i <= k < e :: !Blank(s[k])) && (e < |s| ==> Blank(s[e]))
    decreases |s| - i
  {
    if i < |s| && !Blank(s[i]) then End(s, i + 1) else i
  }

  /** The words of `s` from position `i` on. */
  function Spans(s: string, i: nat): (spans: seq<Span>)
    requires i <= |s|
    ensures forall k | 0 <= k < |spans| :: i <= spans[k].from < spans[k].upto <= |s|
    decreases |s| - i
  {
    if i == |s| then []
    else if Blank(s[i]) then Spans(s, i + 1)
    else [Span(i, End(s, i))] + Spans(s, End(s, i))
  }

  ghost predicate Inside(spans: seq<Span>, n: nat) {
    forall k | 0 <= k < |spans| :: spans[k].from <= spans[k].upto <= n
  }

  function Texts(s: string, spans: seq<Span>): (words: seq<string>)
    requires Inside(spans, |s|)
    ensures |words| == |spans| && forall k | 0 <= k < |words| :: words[k] == s[spans[k].from..spans[k].upto]
  {
    seq(|spans|, k requires 0 <= k < |spans| => s[spans[k].from..spans[k].upto])
  }

  function Words(s: string): (words: seq<string>)
    ensures |words| == |Spans(s, 0)|
    ensures forall k | 0 <= k < |words| :: words[k] == s[Spans(s, 0)[k].from..Spans(s, 0)[k].upto]
  {
    Texts(s, Spans(s, 0))
  }

  lemma SpansStep(s: string, i: nat)
    requires i <= |s|
    ensures i == |s| ==> Spans(s, i) == []
    ensures i < |s| && Blank(s[i]) ==> Spans(s, i) == Spans(s, i + 1)
    ensures i < |s| && !Blank(s[i]) ==> i < End(s, i) && Spans(s, i) == [Span(i, End(s, i))] + Spans(s, End(s, i))
  {
  }

  /** What fits the word buffer. */
  function Cut(w: string): string {
    if |w| > MAX_CMD_WORD_LEN - 1 then w[..MAX_CMD_WORD_LEN - 1] else w
  }

  // ---------------------------------------------------------------- the split is the mathematical one

  /** A maximal run of non-blanks. */
  ghost predicate IsWord(s: string, from: nat, upto: nat) {
    && from < upto <= |s| && (forall k | from <= k < upto :: !Blank(s[k]))
    && (from == 0 || Blank(s[from - 1])) && (upto == |s| || Blank(s[upto]))
  }

  /** The spans are all the maximal runs of non-blanks, in order, and nothing else. */
  lemma {:induction false} SpansAreTheWords(s: string, i: nat)
    requires i <= |s| && (i == 0 || i == |s| || Blank(s[i - 1]) || Blank(s[i]))
    ensures forall k | 0 <= k < |Spans(s, i)| :: IsWord(s, Spans(s, i)[k].from, Spans(s, i)[k].upto)
    ensures forall k | 0 < k < |Spans(s, i)| :: Spans(s, i)[k - 1].upto < Spans(s, i)[k].from
    ensures forall from: nat, upto: nat | i <= from && IsWord(s, from, upto) :: Span(from, upto) in Spans(s, i)
    decreases |s| - i
  {
    hide Spans, IsWord, End;
    SpansStep(s, i);
    if i < |s| {
      if Blank(s[i]) {
        SpansAreTheWords(s, i + 1);
        NotInBlank(s, i);
      } else {
        var e := End(s, i);
        WordAt(s, i);
        SpansAreTheWords(s, e);
        SpansStep(s, e);
      }
    } else {
      NotInBlank(s, i);
    }
  }

  lemma NotInBlank(s: string, i: nat)
    requires i <= |s| && (i < |s| ==> Blank(s[i]))
    ensures forall from: nat, upto: nat | from == i || from >= |s| :: !IsWord(s, from, upto)
  {
  }

  /** A word begins at `i`, and none begins further on before it ends. */
  lemma WordAt(s: string, i: nat)
    requires i < |s| && !Blank(s[i]) && (i == 0 || Blank(s[i - 1]))
    ensures IsWord(s, i, End(s, i)) && (End(s, i) < |s| ==> Blank(s[End(s, i)]))
    ensures forall from: nat, upto: nat | i <= from < End(s, i) && IsWord(s, from, upto) :: from == i && upto == End(s, i)
  {
  }

  lemma {:induction false} EndShift(a: string, b: string, i: nat)
    requires i <= |b|
    ensures End(a + b, |a| + i) == |a| + End(b, i)
    decreases |b| - i
  {
    if i < |b| && !Blank(b[i]) {
      EndShift(a, b, i + 1);
      assert (a + b)[|a| + i] == b[i];
    }
  }

  function Shifted(spans: seq<Span>, offset: nat): (moved: seq<Span>)
    ensures |moved| == |spans| && forall k | 0 <= k < |moved| :: moved[k] == Span(spans[k].from + offset, spans[k].upto + offset)
  {
    seq(|spans|, k requires 0 <= k < |spans| => Span(spans[k].from + offset, spans[k].upto + offset))
  }

  lemma {:induction false} SpansShift(a: string, b: string, i: nat)
    requires i <= |b|
    ensures Spans(a + b, |a| + i) == Shifted(Spans(b, i), |a|)
    decreases |b| - i
  {
    hide Spans, End;
    SpansStep(a + b, |a| + i);
    SpansStep(b, i);
    if i < |b| {
      assert (a + b)[|a| + i] == b[i];
      if Blank(b[i]) {
        SpansShift(a, b, i + 1);
      } else {
        EndShift(a, b, i);
        SpansShift(a, b, End(b, i));
      }
    }
  }

  lemma {:induction false} EndPrefix(a: string, b: string, i: nat)
    requires i <= |a| && (b == [] || Blank(b[0]))
    ensures End(a + b, i) == End(a, i)
    decreases |a| - i
  {
    if i < |a| && !Blank(a[i]) {
      EndPrefix(a, b, i + 1);
    }
  }

  lemma {:induction false} SpansPrefix(a: string, b: string, i: nat)
    requires i <= |a| && (b == [] || Blank(b[0]))
    ensures Spans(a + b, i) == Spans(a, i) + Spans(a + b, |a|)
    decreases |a| - i
  {
    if i < |a| {
      if Blank(a[i]) {
        SpansPrefix(a, b, i + 1);
      } else {
        EndPrefix(a, b, i);
        SpansPrefix(a, b, End(a, i));
      }
    }
  }

  /** A blank separates: the words of two parts are the words of the first and then of the second. */
  lemma WordsAppend(a: string, b: string)
    requires b == [] || Blank(b[0])
    ensures Words(a + b) == Words(a) + Words(b)
  {
    SpansPrefix(a, b, 0);
    SpansShift(a, b, 0);
    SpansInside(a);
    SpansInside(b);
    hide Spans;
    TextsPrefix(a, b, Spans(a, 0));
    TextsShift(a, b, Spans(b, 0));
    TextsSplit(a + b, Spans(a, 0), Shifted(Spans(b, 0), |a|));
  }

  lemma SpansInside(s: string)
    ensures Inside(Spans(s, 0), |s|)
  {
  }

  lemma TextsSplit(s: string, p: seq<Span>, q: seq<Span>)
    requires Inside(p, |s|) && Inside(q, |s|)
    ensures Inside(p + q, |s|) && Texts(s, p + q) == Texts(s, p) + Texts(s, q)
  {
  }

  lemma TextsPrefix(a: string, b: string, spans: seq<Span>)
    requires Inside(spans, |a|)
    ensures Inside(spans, |a + b|) && Texts(a + b, spans) == Texts(a, spans)
  {
    forall k | 0 <= k < |spans| ensures (a + b)[spans[k].from..spans[k].upto] == a[spans[k].from..spans[k].upto] {
    }
  }

  lemma TextsShift(a: string, b: string, spans: seq<Span>)
    requires Inside(spans, |b|)
    ensures Inside(Shifted(spans, |a|), |a + b|) && Texts(a + b, Shifted(spans, |a|)) == Texts(b, spans)
  {
    forall k | 0 <= k < |spans| ensures (a + b)[spans[k].from + |a|..spans[k].upto + |a|] == b[spans[k].from..spans[k].upto] {
    }
  }

  /** The line from the start of word `n` on has exactly the words from `n` on. */
  lemma WordsFrom(s: string, n: nat)
    requires n < |Words(s)|
    ensures Words(s[Spans(s, 0)[n].from..]) == Words(s)[n..]
  {
    SpansInside(s);
    hide Spans;
    var spans := Spans(s, 0);
    var from := spans[n].from;
    SpansFrom(s, 0, n);
    SpansShift(s[..from], s[from..], 0);
    assert s == s[..from] + s[from..];
    SpansInside(s[from..]);
    TextsShift(s[..from], s[from..], Spans(s[from..], 0));
    TextsTail(s, spans, n);
  }

  lemma TextsTail(s: string, spans: seq<Span>, n: nat)
    requires Inside(spans, |s|) && n <= |spans|
    ensures Inside(spans[n..], |s|) && Texts(s, spans[n..]) == Texts(s, spans)[n..]
  {
  }

  lemma {:induction false} SpansFrom(s: string, i: nat, n: nat)
    requires i <= |s| && n < |Spans(s, i)|
    ensures Spans(s, i)[n..] == Spans(s, Spans(s, i)[n].from)
    decreases |s| - i
  {
    if Blank(s[i]) {
      SpansFrom(s, i + 1, n);
    } else if n > 0 {
      SpansFrom(s, End(s, i), n - 1);
      assert Spans(s, i)[n..] == Spans(s, End(s, i))[n - 1..];
    }
  }

  predicate Plain(w: string) {
    w != [] && forall k | 0 <= k < |w| :: !Blank(w[k])
  }

  function Join(words: seq<string>): string {
    if words == [] then [] else [' '] + words[0] + Join(words[1..])
  }

  /** Splitting undoes joining, for words without blanks. */
  lemma {:induction false} SplitJoin(words: seq<string>)
    requires forall k | 0 <= k < |words| :: Plain(words[k])
    ensures Words(Join(words)) == words
  {
    if words != [] {
      SplitJoin(words[1..]);
      WordsAppend([' '] + words[0], Join(words[1..]));
      OneWord(words[0]);
      assert words == [words[0]] + words[1..];
    }
  }

  lemma OneWord(w: string)
    requires Plain(w)
    ensures Words([' '] + w) == [w]
  {
    var s := [' '] + w;
    assert s[1..] == w && forall k | 1 <= k < |s| :: s[k] == w[k - 1];
    assert !Blank(s[1]) && Spans(s, |s|) == [];
    assert Spans(s, 0) == Spans(s, 1) == [Span(1, |s|)];
    assert |Words(s)| == 1 && Words(s)[0] == s[1..];
  }

  /** A blank is a space or a tab; a name is the word itself or its first 63 characters. */
  lemma BlanksAndCuts(c: char, w: string)
    ensures Blank(c) <==> c as int == 32 || c as int == 9
    ensures Cut(w) <= w && |Cut(w)| == if |w| <= 63 then |w| else 63
  {
  }

  // ---------------------------------------------------------------- the scanners

  /** A scan up to `i`: `done` words are behind, and `b` is where the split goes on, before a word begun. */
  ghost predicate Scanned(s: string, i: nat, done: nat, b: nat, inWord: bool) {
    && b <= i <= |s| && done <= |Spans(s, 0)| && Spans(s, 0)[done..] == Spans(s, b)
    && if inWord then b < i && !Blank(s[b]) && End(s, b) == End(s, i) else b == i
  }

  lemma Scans(s: string, i: nat, done: nat, b: nat, inWord: bool)
    requires Scanned(s, i, done, b, inWord) && i < |s|
    ensures !Blank(s[i]) ==> Scanned(s, i + 1, done, b, true)
    ensures Blank(s[i]) && !inWord ==> Scanned(s, i + 1, done, i + 1, false)
    ensures Blank(s[i]) && inWord ==> Scanned(s, i + 1, done + 1, i + 1, false)
    ensures inWord || !Blank(s[i]) ==> done < |Spans(s, 0)| && Spans(s, 0)[done].from == b
    ensures Blank(s[i]) && inWord ==> Spans(s, 0)[done].upto == i
  {
    if inWord || !Blank(s[i]) {
      assert Spans(s, b) == [Span(b, End(s, b))] + Spans(s, End(s, b));
      assert Spans(s, 0)[done..][0] == Spans(s, 0)[done] && Spans(s, 0)[done..][1..] == Spans(s, 0)[done + 1..];
    }
  }

  lemma ScanEnds(s: string, done: nat, b: nat, inWord: bool)
    requires Scanned(s, |s|, done, b, inWord)
    ensures |Spans(s, 0)| == done + if inWord then 1 else 0
    ensures inWord ==> Spans(s, 0)[done] == Span(b, |s|)
  {
    if inWord {
      assert Spans(s, b) == [Span(b, End(s, b))] + Spans(s, End(s, b));
      assert Spans(s, 0)[done..][0] == Spans(s, 0)[done];
    }
    assert |Spans(s, 0)[done..]| == |Spans(s, 0)| - done;
  }

  method NofWords(cmd: string) returns (j: nat)
    ensures j == |Words(cmd)|
  {
    hide Scanned, Spans, End;
    ghost var b := 0;
    var m, i := 0, 0;
    j := 0;
    ScanBegins(cmd);
    while i < |cmd|
      invariant 0 <= i <= |cmd| && m >= 0 && Scanned(cmd, i, j, b, m > 0)
    {
      Scans(cmd, i, j, b, m > 0);
      if Blank(cmd[i]) {
        if m > 0 {
          m := 0;
          j := j + 1;
        }
        b := i + 1;
      } else {
        m := m + 1;
      }
      i := i + 1;
    }
    ScanEnds(cmd, j, b, m > 0);
    if m > 0 {
      j := j + 1;
    }
  }

  lemma ScanBegins(s: string)
    ensures Scanned(s, 0, 0, 0, false)
  {
  }

  /** Word number `n` from 1, cut to the buffer; none when there is no such word. */
  method Nthword(cmd: string, n: int) returns (word: Option<string>)
    ensures word == if 1 <= n <= |Words(cmd)| then Some(Cut(Words(cmd)[n - 1])) else None
  {
    hide Scanned, Spans, End;
    ghost var b := 0;
    var j, i, m, buffer := 1, 0, 0, [];
    ScanBegins(cmd);
    while i < |cmd|
      invariant 0 <= i <= |cmd| && m >= 0 && j >= 1 && Scanned(cmd, i, j - 1, b, m > 0)
      invariant b <= i && buffer == if j == n && m > 0 then Cut(cmd[b..i]) else []
      invariant m == 0 ==> b == i
      invariant j > n ==> n < 1
    {
      Scans(cmd, i, j - 1, b, m > 0);
      assert cmd[b..i + 1] == cmd[b..i] + [cmd[i]];
      if Blank(cmd[i]) {
        if m > 0 {
          m := 0;
          if j == n {
            break;
          }
          j := j + 1;
        }
        b := i + 1;
      } else {
        m := m + 1;
        if j == n {
          if |buffer| < MAX_CMD_WORD_LEN - 1 {
            buffer := buffer + [cmd[i]];
          }
        }
      }
      i := i + 1;
    }
    if i == |cmd| {
      ScanEnds(cmd, j - 1, b, m > 0);
    }
    word := if |buffer| == 0 then None else Some(buffer);
  }

  /** The line from the start of word number `n` on. */
  method Nthwordptr(cmd: string, n: int) returns (rest: Option<string>)
    ensures rest == if 1 <= n <= |Words(cmd)| then Some(cmd[Spans(cmd, 0)[n - 1].from..]) else None
  {
    hide Scanned, Spans, End;
    ghost var b := 0;
    var j, i, m := 1, 0, 0;
    ScanBegins(cmd);
    while i < |cmd|
      invariant 0 <= i <= |cmd| && m >= 0 && j >= 1 && Scanned(cmd, i, j - 1, b, m > 0)
      invariant m > 0 ==> j != n
      invariant m == 0 ==> b == i
      invariant j > n ==> n < 1
    {
      Scans(cmd, i, j - 1, b, m > 0);
      if Blank(cmd[i]) {
        if m > 0 {
          m := 0;
          if j == n {
            break;
          }
          j := j + 1;
        }
        b := i + 1;
      } else {
        m := m + 1;
        if j == n {
          return Some(cmd[i..]);
        }
      }
      i := i + 1;
    }
    ScanEnds(cmd, j - 1, b, m > 0);
    return None;
  }
}
