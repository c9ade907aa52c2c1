/** create.go: the tokenizer behind the search index, its specification and its laws. */
module Tokenizer {
  import opened Types

  predicate IsAlphaNum(c: byte) {
    'a' as int <= c <= 'z' as int || 'A' as int <= c <= 'Z' as int || '0' as int <= c <= '9' as int
  }

  function Lower(c: byte): byte {
    if 'A' as int <= c <= 'Z' as int then c + 32 else c
  }

  /** Every byte of s[i..j] is alphanumeric. */
  predicate AlphaNumOn(s: Text, i: int, j: int)
    requires 0 <= i <= j <= |s|
  {
    forall k | i <= k < j :: IsAlphaNum(s[k])
  }

  function LowerAll(s: Text): Text {
    seq(|s|, i requires 0 <= i < |s| => Lower(s[i]))
  }

  // ---- specification ----

  /** The lowercased maximal alphanumeric runs of s, left to right, given a run already under way. */
  function WordsFrom(word: Text, s: Text): seq<Text>
    decreases |s|
  {
    if s == [] then (if word == [] then [] else [word])
    else if IsAlphaNum(s[0]) then WordsFrom(word + [Lower(s[0])], s[1..])
    else (if word == [] then [] else [word]) + WordsFrom([], s[1..])
  }

  function Words(s: Text): seq<Text> {
    WordsFrom([], s)
  }

  /** First occurrences only, in order. */
  function Dedup(words: seq<Text>): seq<Text> {
    if words == [] then []
    else
      var before, w := Dedup(words[..|words| - 1]), words[|words| - 1];
      if w in before then before else before + [w]
  }

  function Tokens(s: Text): seq<Text> {
    Dedup(Words(s))
  }

  // ---- the loop ----

  method Tokenize(s: Text) returns (tokens: seq<Text>)
    ensures tokens == Tokens(s)
  {
    if s == [] {
      return [];
    }
    tokens := [];
    var seen: set<Text> := {};
    var word: Text := [];
    ghost var done: seq<Text> := [];
    assert s[0..] == s && done + Words(s) == Words(s);
    for i := 0 to |s|
      invariant Words(s) == done + WordsFrom(word, s[i..])
      invariant tokens == Dedup(done)
      invariant forall t :: t in seen <==> t in tokens
    {
      var c := s[i];
      WordsStep(done, word, s, i);
      if IsAlphaNum(c) {
        word := word + [Lower(c)];
      } else if |word| > 0 {
        var t := word;
        DedupSnoc(done, t);
        if t !in seen {
          tokens := tokens + [t];
          seen := seen + {t};
        }
        done := done + [t];
        word := [];
      }
    }
    assert s[|s|..] == [] && done + [] == done;
    if |word| > 0 {
      var t := word;
      DedupSnoc(done, t);
      if t !in seen {
        tokens := tokens + [t];
      }
    }
  }

  /** One byte of the loop, seen from the specification. */
  lemma WordsStep(done: seq<Text>, word: Text, s: Text, i: nat)
    requires i < |s|
    ensures done + WordsFrom(word, s[i..]) ==
            if IsAlphaNum(s[i]) then done + WordsFrom(word + [Lower(s[i])], s[i + 1..])
            else if word == [] then done + WordsFrom([], s[i + 1..])
            else (done + [word]) + WordsFrom([], s[i + 1..])
  {
    assert s[i..][1..] == s[i + 1..];
  }

  lemma DedupSnoc(words: seq<Text>, w: Text)
    ensures Dedup(words + [w]) == if w in Dedup(words) then Dedup(words) else Dedup(words) + [w]
  {
    assert (words + [w])[..|words|] == words;
  }

  // ---- what the specification means ----

  /** s[i..j] is a nonempty alphanumeric run that extends neither way. */
  predicate IsRun(s: Text, i: int, j: int) {
    && 0 <= i < j <= |s|
    && AlphaNumOn(s, i, j)
    && (i > 0 ==> !IsAlphaNum(s[i - 1]))
    && (j < |s| ==> !IsAlphaNum(s[j]))
  }

  /** Splitting at a separator splits the words. */
  lemma {:induction false} WordsSplit(word: Text, a: Text, sep: byte, b: Text)
    requires !IsAlphaNum(sep)
    ensures WordsFrom(word, a + [sep] + b) == WordsFrom(word, a) + Words(b)
    decreases |a|
  {
    var s := a + [sep] + b;
    if a == [] {
      assert s[0] == sep && s[1..] == b;
    } else {
      assert s[0] == a[0] && s[1..] == a[1..] + [sep] + b;
      if IsAlphaNum(a[0]) {
        WordsSplit(word + [Lower(a[0])], a[1..], sep, b);
      } else {
        WordsSplit([], a[1..], sep, b);
      }
    }
  }

  lemma {:induction false} WordsOfRun(word: Text, a: Text)
    requires AlphaNumOn(a, 0, |a|)
    ensures WordsFrom(word, a) == if word + LowerAll(a) == [] then [] else [word + LowerAll(a)]
    decreases |a|
  {
    if a == [] {
      assert word + LowerAll(a) == word;
    } else {
      WordsOfRun(word + [Lower(a[0])], a[1..]);
      assert word + [Lower(a[0])] + LowerAll(a[1..]) == word + LowerAll(a);
    }
  }

  /** Where the first run that touches position i ends. */
  function RunEnd(s: Text, i: nat): (j: nat)
    requires i <= |s|
    ensures i <= j <= |s| && AlphaNumOn(s, i, j) && (j < |s| ==> !IsAlphaNum(s[j]))
    decreases |s| - i
  {
    if i < |s| && IsAlphaNum(s[i]) then
      RunEnd(s, i + 1)
    else i
  }

  /** The word of the run s[i..j]. */
  function WordAt(s: Text, i: int, j: int): Text
    requires 0 <= i <= j <= |s|
  {
    LowerAll(s[i..j])
  }

  predicate IsRunOf(s: Text, i: int, j: int, w: Text) {
    IsRun(s, i, j) && w == WordAt(s, i, j)
  }

  /**
   * The words of s are exactly its lowercased maximal runs: every run is a word
   * and every word is a run.
   */
  lemma WordsAreTheRuns(s: Text, w: Text)
    ensures w in Words(s) <==> exists i, j :: IsRunOf(s, i, j, w)
  {
    if w in Words(s) {
      var i, j := WordIsARun(s, w);
    }
    forall i, j | IsRunOf(s, i, j, w) ensures w in Words(s) {
      RunIsAWord(s, i, j);
    }
  }

  lemma RunIsAWord(s: Text, i: int, j: int)
    requires IsRun(s, i, j)
    ensures WordAt(s, i, j) in Words(s)
  {
    var front, run := s[..j], s[i..j];
    if j < |s| {
      assert s == front + [s[j]] + s[j + 1..];
      WordsSplit([], front, s[j], s[j + 1..]);
    } else {
      assert s == front;
    }
    if i > 0 {
      assert front == s[..i - 1] + [s[i - 1]] + run;
      WordsSplit([], s[..i - 1], s[i - 1], run);
    } else {
      assert front == run;
    }
    WordsOfRun([], run);
    assert [] + LowerAll(run) == WordAt(s, i, j);
  }

  /** The words of s are the run at its front, if any, then the words after the separator ending it. */
  lemma FirstRun(s: Text) returns (j: nat)
    ensures j <= |s| && AlphaNumOn(s, 0, j) && (j > 0 ==> IsRun(s, 0, j)) && (j < |s| ==> !IsAlphaNum(s[j]))
    ensures Words(s) == (if j == 0 then [] else [WordAt(s, 0, j)]) + (if j == |s| then [] else Words(s[j + 1..]))
  {
    j := RunEnd(s, 0);
    var front := s[..j];
    WordsOfRun([], front);
    assert [] + LowerAll(front) == WordAt(s, 0, j) by { assert front == s[0..j]; }
    if j == |s| {
      assert front == s;
    } else {
      assert s == front + [s[j]] + s[j + 1..];
      WordsSplit([], front, s[j], s[j + 1..]);
    }
  }

  lemma WordIsARun(s: Text, w: Text) returns (i: int, j: int)
    requires w in Words(s)
    ensures IsRunOf(s, i, j, w)
  {
    var runs := WordsInOrder(s);
    var k :| 0 <= k < |runs| && Words(s)[k] == w;
    i, j := runs[k].i, runs[k].j;
  }

  /** A position where no run continues: either end of s, or next to a separator. */
  predicate IsBoundary(s: Text, i: int)
    requires 0 <= i <= |s|
  {
    i == 0 || i == |s| || !IsAlphaNum(s[i - 1]) || !IsAlphaNum(s[i])
  }

  /** A maximal run of a piece cut at boundaries is a maximal run of the whole. */
  lemma RunOfCut(s: Text, from: nat, till: nat, i: int, j: int)
    requires from <= till <= |s| && IsBoundary(s, from) && IsBoundary(s, till)
    requires IsRun(s[from..till], i, j)
    ensures IsRun(s, from + i, from + j) && WordAt(s, from + i, from + j) == WordAt(s[from..till], i, j)
  {
    SliceOfSlice(s, from, till, i, j);
    var q := s[from..till];
    assert forall k | 0 <= k < |q| :: s[from + k] == q[k];
    assert IsAlphaNum(q[i]) && IsAlphaNum(q[j - 1]);
    forall k | from + i <= k < from + j ensures IsAlphaNum(s[k]) {
      assert s[k] == q[k - from];
    }
  }

  lemma SliceOfSlice(s: Text, from: nat, till: nat, i: nat, j: nat)
    requires from <= till <= |s| && i <= j <= till - from
    ensures s[from..till][i..j] == s[from + i..from + j]
  {
    forall m | 0 <= m < j - i ensures s[from..till][i..j][m] == s[from + i..from + j][m] {}
  }

  // ---- order in the text ----

  /** Where a run stands. */
  datatype Run = Run(i: int, j: int)

  /** The runs are maximal runs of s, left to right, with the words as their lowercase forms. */
  predicate AreRunsOf(s: Text, runs: seq<Run>, words: seq<Text>) {
    && |runs| == |words|
    && (forall k | 0 <= k < |runs| :: IsRunOf(s, runs[k].i, runs[k].j, words[k]))
    && (forall k, m | 0 <= k < m < |runs| :: runs[k].j < runs[m].i)
  }

  ghost predicate HasAllRuns(s: Text, runs: seq<Run>) {
    forall i: int, j: int | IsRun(s, i, j) :: Run(i, j) in runs
  }

  function Moved(runs: seq<Run>, d: int): seq<Run> {
    seq(|runs|, k requires 0 <= k < |runs| => Run(d + runs[k].i, d + runs[k].j))
  }

  /**
   * The words of s are all its maximal runs, each in its place: they come with their positions, in
   * strictly increasing order, and every maximal run is among them.
   */
  lemma {:induction false} WordsInOrder(s: Text) returns (runs: seq<Run>)
    ensures AreRunsOf(s, runs, Words(s)) && HasAllRuns(s, runs)
    decreases |s|
  {
    var first := FirstRun(s);
    var head := if first == 0 then [] else [Run(0, first)];
    if first == |s| {
      runs := head;
      forall i, j | IsRun(s, i, j) ensures Run(i, j) in runs {
        OnlyRun(s, first, i, j);
      }
    } else {
      hide AreRunsOf, HasAllRuns, Words;
      var later := WordsInOrder(s[first + 1..]);
      runs := head + Moved(later, first + 1);
      RunsInOrder(s, first, later, Words(s[first + 1..]));
      RunsAreAll(s, first, later);
    }
  }

  /** A run that begins no later than the first separator is the run at the front. */
  lemma OnlyRun(s: Text, first: nat, i: int, j: int)
    requires first <= |s| && AlphaNumOn(s, 0, first) && (first < |s| ==> !IsAlphaNum(s[first]))
    requires IsRun(s, i, j) && i <= first
    ensures i == 0 && j == first
  {
    assert IsAlphaNum(s[i]) && IsAlphaNum(s[j - 1]);
    assert forall k | 0 <= k < first :: IsAlphaNum(s[k]);
  }

  /** A run beyond the first separator is a run of what follows it. */
  lemma RunOfRest(s: Text, first: nat, i: int, j: int)
    requires first < |s| && IsRun(s, i, j) && i > first
    ensures IsRun(s[first + 1..], i - first - 1, j - first - 1)
  {
    var rest := s[first + 1..];
    assert forall k | 0 <= k < |rest| :: rest[k] == s[first + 1 + k];
  }

  /** The run at the front, if any, and the runs of what follows the first separator. */
  lemma RunsInOrder(s: Text, first: nat, later: seq<Run>, words: seq<Text>)
    requires first < |s| && !IsAlphaNum(s[first]) && (first > 0 ==> IsRun(s, 0, first))
    requires AreRunsOf(s[first + 1..], later, words)
    ensures AreRunsOf(s, (if first == 0 then [] else [Run(0, first)]) + Moved(later, first + 1),
                      (if first == 0 then [] else [WordAt(s, 0, first)]) + words)
  {
    MovedRuns(s, first, later, words);
    if first == 0 {
      assert [] + Moved(later, 1) == Moved(later, 1) && [] + words == words;
    } else {
      RunsCons(s, Run(0, first), Moved(later, first + 1), WordAt(s, 0, first), words);
    }
  }

  lemma MovedRuns(s: Text, first: nat, later: seq<Run>, words: seq<Text>)
    requires first < |s| && !IsAlphaNum(s[first])
    requires AreRunsOf(s[first + 1..], later, words)
    ensures AreRunsOf(s, Moved(later, first + 1), words)
    ensures var moved := Moved(later, first + 1); forall k | 0 <= k < |moved| :: first < moved[k].i
  {
    hide IsRunOf;
    forall k | 0 <= k < |later|
      ensures IsRunOf(s, first + 1 + later[k].i, first + 1 + later[k].j, words[k]) && later[k].i >= 0
    {
      MovedRun(s, first, later[k], words[k]);
    }
  }

  lemma MovedRun(s: Text, first: nat, r: Run, w: Text)
    requires first < |s| && !IsAlphaNum(s[first]) && IsRunOf(s[first + 1..], r.i, r.j, w)
    ensures r.i >= 0 && IsRunOf(s, first + 1 + r.i, first + 1 + r.j, w)
  {
    assert s[first + 1..] == s[first + 1..|s|];
    RunOfCut(s, first + 1, |s|, r.i, r.j);
  }

  lemma RunsCons(s: Text, r: Run, runs: seq<Run>, w: Text, words: seq<Text>)
    requires IsRunOf(s, r.i, r.j, w) && AreRunsOf(s, runs, words)
    requires forall k | 0 <= k < |runs| :: r.j < runs[k].i
    ensures AreRunsOf(s, [r] + runs, [w] + words)
  {
    hide IsRunOf;
  }

  lemma RunsAreAll(s: Text, first: nat, later: seq<Run>)
    requires first < |s| && !IsAlphaNum(s[first]) && AlphaNumOn(s, 0, first)
    requires HasAllRuns(s[first + 1..], later)
    ensures HasAllRuns(s, (if first == 0 then [] else [Run(0, first)]) + Moved(later, first + 1))
  {
    var runs := (if first == 0 then [] else [Run(0, first)]) + Moved(later, first + 1);
    forall i: int, j: int | IsRun(s, i, j) ensures Run(i, j) in runs {
      if i <= first {
        OnlyRun(s, first, i, j);
      } else {
        RunOfRest(s, first, i, j);
        var k :| 0 <= k < |later| && later[k] == Run(i - first - 1, j - first - 1);
        assert Moved(later, first + 1)[k] == Run(i, j);
      }
    }
  }

  /**
   * Tokens stand in the order in which they first occur in the text: the earlier token has a run that
   * begins before every run of the later one.
   */
  lemma TokensInTextOrder(s: Text, a: nat, b: nat)
    requires a < b < |Tokens(s)|
    ensures exists i, j :: IsRunOf(s, i, j, Tokens(s)[a]) &&
              forall i', j' :: IsRunOf(s, i', j', Tokens(s)[b]) ==> i < i'
  {
    var words := Words(s);
    var w, w' := Tokens(s)[a], Tokens(s)[b];
    DedupMeaning(words);
    var runs := WordsInOrder(s);
    var first := FirstAt(words, w);
    assert IsRunOf(s, runs[first].i, runs[first].j, w);
    forall i', j' | IsRunOf(s, i', j', w') ensures runs[first].i < i' {
      var k :| 0 <= k < |runs| && runs[k] == Run(i', j');
      assert words[k] == w';
      FirstAtIsFirst(words, w', k);
    }
  }

  lemma FirstAtIsFirst(words: seq<Text>, w: Text, k: nat)
    requires k < |words| && words[k] == w
    ensures FirstAt(words, w) <= k
  {
    var i := FirstAt(words, w);
    assert forall m | 0 <= m < i :: words[..i][m] == words[m];
  }

  predicate NoDuplicates(words: seq<Text>) {
    forall i, j | 0 <= i < j < |words| :: words[i] != words[j]
  }

  /** Position of the first occurrence. */
  function FirstAt(words: seq<Text>, w: Text): (i: nat)
    requires w in words
    ensures i < |words| && words[i] == w && w !in words[..i]
  {
    if words[0] == w then 0
    else
      var i := 1 + FirstAt(words[1..], w);
      assert words[..i] == [words[0]] + words[1..][..i - 1];
      i
  }

  /** Dedup keeps the same words, each once, in the order of their first occurrences. */
  lemma {:induction false} DedupMeaning(words: seq<Text>)
    ensures NoDuplicates(Dedup(words))
    ensures forall w :: w in Dedup(words) <==> w in words
    ensures forall i, j | 0 <= i < j < |Dedup(words)| ::
              Dedup(words)[i] in words && Dedup(words)[j] in words &&
              FirstAt(words, Dedup(words)[i]) < FirstAt(words, Dedup(words)[j])
  {
    if words != [] {
      var front, w := words[..|words| - 1], words[|words| - 1];
      assert words == front + [w];
      DedupMeaning(front);
      var d := Dedup(words);
      forall i, j | 0 <= i < j < |d|
        ensures d[i] in words && d[j] in words && FirstAt(words, d[i]) < FirstAt(words, d[j])
      {
        FirstAtPrefix(front, [w], d[i]);
        if d[j] in front {
          FirstAtPrefix(front, [w], d[j]);
        } else {
          assert words[..|front|] == front;
          FirstAtIs(words, d[j], |front|);
        }
      }
    }
  }

  lemma FirstAtPrefix(a: seq<Text>, b: seq<Text>, w: Text)
    requires w in a
    ensures w in a + b && FirstAt(a + b, w) == FirstAt(a, w)
  {
    var i := FirstAt(a, w);
    assert (a + b)[..i] == a[..i] && (a + b)[i] == w;
    FirstAtIs(a + b, w, i);
  }

  lemma {:induction false} FirstAtIs(words: seq<Text>, w: Text, i: nat)
    requires i < |words| && words[i] == w && w !in words[..i]
    ensures FirstAt(words, w) == i
  {
    if i > 0 {
      assert words[..i][0] == words[0];
      assert words[1..][..i - 1] == words[..i][1..];
      FirstAtIs(words[1..], w, i - 1);
    }
  }

  // ---- the alphabet ----

  /** Every byte of a token is a lowercase letter or a digit. */
  lemma TokenBytes(s: Text, t: Text, k: nat)
    requires t in Tokens(s) && k < |t|
    ensures 97 <= t[k] <= 122 || 48 <= t[k] <= 57
  {
    DedupMeaning(Words(s));
    WordsAreWords(s);
    assert LowerAll(t)[k] == t[k];
  }

  /** t is s[i..] with uppercase letters lowered, as far as t goes. */
  predicate FoldedAt(s: Text, i: nat, t: Text) {
    i + |t| <= |s| && forall k | 0 <= k < |t| :: t[k] == if 65 <= s[i + k] <= 90 then s[i + k] + 32 else s[i + k]
  }

  /** Every letter and digit of the text lies in a piece of it whose lowercase form is a token. */
  lemma EveryLetterIsInAToken(s: Text, p: nat) returns (i: nat, t: Text)
    requires p < |s| && (97 <= s[p] <= 122 || 65 <= s[p] <= 90 || 48 <= s[p] <= 57)
    ensures t in Tokens(s) && i <= p < i + |t| && FoldedAt(s, i, t)
  {
    i := RunStart(s, p);
    var j := RunEnd(s, p);
    assert IsRun(s, i, j);
    RunIsAWord(s, i, j);
    DedupMeaning(Words(s));
    t := WordAt(s, i, j);
    assert forall k | 0 <= k < j - i :: s[i..j][k] == s[i + k];
  }

  /** Where the run through position p begins. */
  function RunStart(s: Text, p: nat): (i: nat)
    requires p <= |s|
    ensures i <= p && AlphaNumOn(s, i, p) && (i > 0 ==> !IsAlphaNum(s[i - 1]))
  {
    if p > 0 && IsAlphaNum(s[p - 1]) then RunStart(s, p - 1) else p
  }

  /** The bytes are equal, or the two cases of one letter. */
  predicate SameLetter(c: byte, c': byte) {
    c == c' || (65 <= c <= 90 && c' == c + 32) || (65 <= c' <= 90 && c == c' + 32)
  }

  lemma {:induction false} WordsIgnoreCase(word: Text, s: Text, s': Text)
    requires |s| == |s'| && forall k | 0 <= k < |s| :: SameLetter(s[k], s'[k])
    ensures WordsFrom(word, s) == WordsFrom(word, s')
    decreases |s|
  {
    if s != [] {
      assert SameLetter(s[0], s'[0]);
      forall k | 0 <= k < |s| - 1 ensures SameLetter(s[1..][k], s'[1..][k]) {
        assert SameLetter(s[k + 1], s'[k + 1]);
      }
      WordsIgnoreCase(word + [Lower(s[0])], s[1..], s'[1..]);
      WordsIgnoreCase([], s[1..], s'[1..]);
    }
  }

  /** Texts that differ in the case of letters alone have the same tokens. */
  lemma TokensIgnoreCase(s: Text, s': Text)
    requires |s| == |s'| && forall k | 0 <= k < |s| :: SameLetter(s[k], s'[k])
    ensures Tokens(s) == Tokens(s')
  {
    WordsIgnoreCase([], s, s');
  }

  // ---- laws ----

  /** Deduplicating the left part first changes nothing. */
  lemma {:induction false} DedupAppend(a: seq<Text>, b: seq<Text>)
    ensures Dedup(a + b) == Dedup(Dedup(a) + b)
  {
    if b == [] {
      assert a + b == a && Dedup(a) + b == Dedup(a);
      DedupMeaning(a);
      DedupOfUnique(Dedup(a));
    } else {
      var front, w := b[..|b| - 1], b[|b| - 1];
      assert a + b == (a + front) + [w] && Dedup(a) + b == (Dedup(a) + front) + [w];
      DedupAppend(a, front);
      DedupSnoc(a + front, w);
      DedupSnoc(Dedup(a) + front, w);
    }
  }

  /** Deduplicating the right part first changes nothing either. */
  lemma {:induction false} DedupAppendRight(a: seq<Text>, b: seq<Text>)
    ensures Dedup(a + b) == Dedup(a + Dedup(b))
  {
    if b != [] {
      var front, w := b[..|b| - 1], b[|b| - 1];
      assert b == front + [w] && a + b == (a + front) + [w];
      DedupAppendRight(a, front);
      DedupSnoc(a + front, w);
      DedupSnoc(front, w);
      if w in Dedup(front) {
        DedupMeaning(a + front);
        DedupMeaning(front);
      } else {
        assert a + Dedup(b) == (a + Dedup(front)) + [w];
        DedupSnoc(a + Dedup(front), w);
      }
    }
  }

  lemma {:induction false} DedupOfUnique(words: seq<Text>)
    requires NoDuplicates(words)
    ensures Dedup(words) == words
  {
    if words != [] {
      var front := words[..|words| - 1];
      DedupOfUnique(front);
      assert words == front + [words[|words| - 1]];
    }
  }

  /** Tokenizing across any separator is tokenizing both sides and keeping first occurrences. */
  lemma TokensOfConcat(a: Text, sep: byte, b: Text)
    requires !IsAlphaNum(sep)
    ensures Tokens(a + [sep] + b) == Dedup(Tokens(a) + Tokens(b))
  {
    WordsSplit([], a, sep, b);
    DedupAppend(Words(a), Words(b));
    DedupAppendRight(Dedup(Words(a)), Words(b));
  }

  function Join(words: seq<Text>, sep: byte): Text {
    if words == [] then []
    else if |words| == 1 then words[0]
    else words[0] + [sep] + Join(words[1..], sep)
  }

  predicate IsWord(w: Text) {
    w != [] && AlphaNumOn(w, 0, |w|) && LowerAll(w) == w
  }

  lemma {:induction false} WordsOfJoin(words: seq<Text>, sep: byte)
    requires !IsAlphaNum(sep)
    requires forall w | w in words :: IsWord(w)
    ensures Words(Join(words, sep)) == words
  {
    if words != [] {
      assert words[0] in words;
      WordsOfRun([], words[0]);
      assert [] + LowerAll(words[0]) == words[0];
      if |words| > 1 {
        assert forall w | w in words[1..] :: w in words;
        WordsSplit([], words[0], sep, Join(words[1..], sep));
        WordsOfJoin(words[1..], sep);
      }
    }
  }

  lemma WordsAreWords(s: Text)
    ensures forall w | w in Words(s) :: IsWord(w)
  {
    forall w | w in Words(s) ensures IsWord(w) {
      WordsAreTheRuns(s, w);
      var i, j :| IsRunOf(s, i, j, w);
      assert forall c: byte | IsAlphaNum(c) :: IsAlphaNum(Lower(c)) && Lower(Lower(c)) == Lower(c);
      assert LowerAll(w) == w;
    }
  }

  /** The tokens of a text, written out with any separator between them, tokenize to themselves. */
  lemma TokensAreAFixedPoint(s: Text, sep: byte)
    requires !IsAlphaNum(sep)
    ensures Tokens(Join(Tokens(s), sep)) == Tokens(s)
  {
    WordsAreWords(s);
    DedupMeaning(Words(s));
    WordsOfJoin(Tokens(s), sep);
    DedupOfUnique(Tokens(s));
  }

  /** A query cut from a title at word boundaries has no token the title lacks. */
  lemma CutYieldsOnlyStoredTokens(title: Text, from: nat, till: nat)
    requires from <= till <= |title| && IsBoundary(title, from) && IsBoundary(title, till)
    ensures forall t | t in Tokens(title[from..till]) :: t in Tokens(title)
  {
    var query := title[from..till];
    DedupMeaning(Words(query));
    DedupMeaning(Words(title));
    forall t | t in Tokens(query) ensures t in Tokens(title) {
      WordsAreTheRuns(query, t);
      var i, j :| IsRunOf(query, i, j, t);
      RunOfCut(title, from, till, i, j);
      assert IsRunOf(title, from + i, from + j, t);
      WordsAreTheRuns(title, t);
    }
  }

  // ---- the token map of Create ----

  function TokenMap(title: Text, description: Text): (m: TokenIndex) {
    (if Tokens(title) == [] then map[] else map["title" := Tokens(title)]) +
    (if Tokens(description) == [] then map[] else map["description" := Tokens(description)])
  }

  method BuildTokens(title: Text, description: Text) returns (m: TokenIndex)
    ensures m == TokenMap(title, description)
  {
    m := map[];
    var t := Tokenize(title);
    if |t| > 0 {
      m := m["title" := t];
    }
    t := Tokenize(description);
    if |t| > 0 {
      m := m["description" := t];
    }
  }
}
