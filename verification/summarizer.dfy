/** The local extractive summarizer of app.py (`simple_summarizer`): split the
    text at every run of spaces that follows `.`, `!` or `?`, keep the first
    few pieces and join them with single spaces. */
module Summarizer {

  /** Characters after which a run of spaces ends a sentence. */
  predicate IsTerminator(c: char) {
    c == '.' || c == '!' || c == '?'
  }

  /** The pattern `(?<=[.!?]) +` can start a match at index i of s: the
      look-behind sees a terminator and at least one space follows. */
  predicate BreakAt(s: string, i: int) {
    1 <= i < |s| && IsTerminator(s[i - 1]) && s[i] == ' '
  }

  /** The first index at or after `from` where a match starts, or |s| when none does. */
  function FindBreak(s: string, from: nat): (i: nat)
    requires from <= |s|
    ensures from <= i <= |s|
    ensures i < |s| ==> BreakAt(s, i)
    ensures forall j :: from <= j < i ==> !BreakAt(s, j)
    decreases |s| - from
  {
    if from == |s| || BreakAt(s, from) then from else FindBreak(s, from + 1)
  }

  /** The end of the run of spaces starting at `from`: ` +` is greedy. */
  function SpaceRunEnd(s: string, from: nat): (j: nat)
    requires from <= |s|
    ensures from <= j <= |s|
    ensures forall k :: from <= k < j ==> s[k] == ' '
    ensures j < |s| ==> s[j] != ' '
    decreases |s| - from
  {
    if from < |s| && s[from] == ' ' then SpaceRunEnd(s, from + 1) else from
  }

  /** One piece of the split together with the number of spaces the match
      after it consumed (0 for the last piece). */
  datatype Piece = Piece(sentence: string, gap: nat)

  /** Splitting at every match, scanning from the left as `re.split` does;
      each piece remembers the separator that followed it. */
  function Split(s: string): (ps: seq<Piece>)
    ensures |ps| >= 1
    decreases |s|
  {
    var i := FindBreak(s, 0);
    if i == |s| then [Piece(s, 0)]
    else
      var j := SpaceRunEnd(s, i);
      [Piece(s[..i], j - i)] + Split(s[j..])
  }

  function Sentences(ps: seq<Piece>): (r: seq<string>)
    ensures |r| == |ps|
    ensures forall k :: 0 <= k < |ps| ==> r[k] == ps[k].sentence
  {
    seq(|ps|, k requires 0 <= k < |ps| => ps[k].sentence)
  }

  /** The list of sentences the regular-expression split returns. */
  function ReSplit(s: string): (r: seq<string>)
    ensures |r| >= 1
  {
    Sentences(Split(s))
  }

  function Spaces(n: nat): (r: string)
    ensures |r| == n && forall k :: 0 <= k < n ==> r[k] == ' '
  {
    seq(n, _ => ' ')
  }

  /** Glues the pieces back together, each with the separator it was split at. */
  function Rejoin(ps: seq<Piece>): string {
    if ps == [] then "" else ps[0].sentence + Spaces(ps[0].gap) + Rejoin(ps[1..])
  }

  /** Joins the strings with one space between neighbours. */
  function JoinWithSpace(xs: seq<string>): string {
    if |xs| == 0 then ""
    else if |xs| == 1 then xs[0]
    else xs[0] + " " + JoinWithSpace(xs[1..])
  }

  /** The end index of Python's slice `xs[:k]` on a list of length n
      (a negative k counts from the end). */
  function SliceEnd(n: nat, k: int): (m: nat)
    ensures m <= n
    ensures k >= 0 ==> m == (if k < n then k else n)
    ensures k < 0 ==> m + (if -k < n then -k else n) == n
  {
    if k >= 0 then (if k < n then k else n)
    else if n + k > 0 then n + k else 0
  }

  const DefaultMaxSentences := 3

  /** The summary: the first `maxSentences` sentences, joined with single spaces. */
  function Summarize(text: string, maxSentences: int): (r: string)
    ensures |r| <= |text|
    ensures maxSentences == 0 ==> r == ""
  {
    var sentences := ReSplit(text);
    SplitIsSplitOf(text);
    JoinNotLonger(Split(text), SliceEnd(|sentences|, maxSentences));
    JoinWithSpace(sentences[..SliceEnd(|sentences|, maxSentences)])
  }

  // ---------------------------------------------------------------------
  // What the split means, independently of how it scans.

  /** A piece that closed a sentence: it ends with a terminator and the match
      after it consumed at least one space. */
  predicate ClosesSentence(p: Piece) {
    p.gap >= 1 && |p.sentence| >= 1 && IsTerminator(p.sentence[|p.sentence| - 1])
  }

  /** No match of the pattern starts inside t. */
  ghost predicate NoBreakIn(t: string) {
    forall i :: !BreakAt(t, i)
  }

  /** t does not start with a space. */
  predicate NotSpaceLed(t: string) {
    t == [] || t[0] != ' '
  }

  /** The shape of every split, whatever text it came from. */
  ghost predicate WellShaped(ps: seq<Piece>) {
    && |ps| >= 1
    && ps[|ps| - 1].gap == 0
    && (forall k :: 0 <= k < |ps| - 1 ==> ClosesSentence(ps[k]))
    && (forall k :: 0 < k < |ps| ==> NotSpaceLed(ps[k].sentence))
    && (forall k :: 0 <= k < |ps| ==> NoBreakIn(ps[k].sentence))
  }

  /** `ps` splits `s` at every maximal run of spaces that follows a terminator:
      glued back with their separators the pieces give `s`; every piece but
      the last ends with a terminator and is followed by at least one space;
      no piece holds a terminator followed by a space; and no piece after a
      separator starts with a space (the run was taken whole). */
  ghost predicate IsSplitOf(ps: seq<Piece>, s: string) {
    WellShaped(ps) && Rejoin(ps) == s
  }

  /** No terminator in `s` is followed by more than one space. */
  ghost predicate SingleSpaced(s: string) {
    forall i :: BreakAt(s, i) ==> i + 1 == |s| || s[i + 1] != ' '
  }

  /** A break inside a prefix of s is a break of s. */
  lemma BreakInPrefix(s: string, n: nat, i: int)
    requires n <= |s| && BreakAt(s[..n], i)
    ensures BreakAt(s, i) && i < n
  {
  }

  /** A break of a suffix of s is a break of s, shifted. */
  lemma BreakInSuffix(s: string, n: nat, i: int)
    requires n <= |s| && BreakAt(s[n..], i)
    ensures BreakAt(s, n + i)
  {
  }

  lemma RejoinCons(p: Piece, tail: seq<Piece>)
    ensures Rejoin([p] + tail) == p.sentence + Spaces(p.gap) + Rejoin(tail)
  {
    assert ([p] + tail)[1..] == tail;
  }

  /** The glued text starts with the first piece. */
  lemma RejoinStartsWithFirst(ps: seq<Piece>)
    requires |ps| >= 1
    ensures ps[0].sentence <= Rejoin(ps)
  {
  }

  lemma WellShapedCons(p: Piece, tail: seq<Piece>)
    requires WellShaped(tail)
    requires ClosesSentence(p) && NoBreakIn(p.sentence) && NotSpaceLed(tail[0].sentence)
    ensures WellShaped([p] + tail)
  {
    var ps := [p] + tail;
    forall k | 0 < k < |ps| ensures ps[k] == tail[k - 1] { }
  }

  lemma WellShapedTail(ps: seq<Piece>)
    requires WellShaped(ps) && |ps| >= 2
    ensures WellShaped(ps[1..])
    ensures ClosesSentence(ps[0]) && NoBreakIn(ps[0].sentence) && NotSpaceLed(ps[1].sentence)
  {
    var tail := ps[1..];
    forall k | 0 <= k < |tail| ensures tail[k] == ps[k + 1] { }
  }

  /** The text before the first match holds no match. */
  lemma NoBreakBeforeFirst(s: string)
    ensures NoBreakIn(s[..FindBreak(s, 0)])
  {
    var i := FindBreak(s, 0);
    forall t ensures !BreakAt(s[..i], t) {
      if BreakAt(s[..i], t) { BreakInPrefix(s, i, t); }
    }
  }

  /** Gluing a piece, the spaces after it and the rest back together gives the text. */
  lemma GlueAround(s: string, i: nat, j: nat)
    requires i <= j <= |s|
    requires forall k :: i <= k < j ==> s[k] == ' '
    ensures s[..i] + Spaces(j - i) + s[j..] == s
  {
    assert Spaces(j - i) == s[i..j];
    assert s == s[..i] + s[i..j] + s[j..];
  }

  /** One step of the scan: the first match, taken whole, in front of a split of the rest. */
  lemma SplitStep(s: string, i: nat, j: nat, tail: seq<Piece>)
    requires i == FindBreak(s, 0) && i < |s| && j == SpaceRunEnd(s, i)
    requires IsSplitOf(tail, s[j..])
    ensures IsSplitOf([Piece(s[..i], j - i)] + tail, s)
  {
    var p := Piece(s[..i], j - i);
    // the first piece closes a sentence and holds no other match
    assert ClosesSentence(p);
    NoBreakBeforeFirst(s);
    // the next piece starts where the greedy run of spaces stopped
    if tail[0].sentence != [] {
      RejoinStartsWithFirst(tail);
      assert tail[0].sentence[0] == s[j..][0] == s[j];
    }
    WellShapedCons(p, tail);
    RejoinCons(p, tail);
    GlueAround(s, i, j);
  }

  /** A text in which the scan finds no match is split into itself. */
  lemma WholeTextIsSplit(s: string)
    requires FindBreak(s, 0) == |s|
    ensures IsSplitOf([Piece(s, 0)], s)
  {
    assert NoBreakIn(s);
    assert Spaces(0) == [] && Rejoin([]) == [];
    RejoinCons(Piece(s, 0), []);
    assert [Piece(s, 0)] + [] == [Piece(s, 0)];
  }

  lemma {:induction false} SplitIsSplitOf(s: string)
    ensures IsSplitOf(Split(s), s)
    decreases |s|
  {
    var i := FindBreak(s, 0);
    if i == |s| {
      WholeTextIsSplit(s);
    } else {
      var j := SpaceRunEnd(s, i);
      var tail := Split(s[j..]);
      assert Split(s) == [Piece(s[..i], j - i)] + tail;
      SplitIsSplitOf(s[j..]);
      SplitStep(s, i, j, tail);
    }
  }

  /** In a well-shaped split, the text after the first separator starts with no space. */
  lemma RestNotSpaceLed(ps: seq<Piece>)
    requires WellShaped(ps) && |ps| >= 2
    ensures NotSpaceLed(Rejoin(ps[1..]))
  {
    var tail := ps[1..];
    WellShapedTail(ps);
    RejoinStartsWithFirst(tail);
    if tail[0].sentence == [] {
      // an empty piece cannot close a sentence, so it is the last one
      assert |tail| == 1;
      RejoinCons(tail[0], []);
      assert tail == [tail[0]] + [];
    }
  }

  /** A match with none before it is the first one. */
  lemma FirstBreakIs(s: string, b: nat)
    requires BreakAt(s, b) && forall t :: 0 <= t < b ==> !BreakAt(s, t)
    ensures FindBreak(s, 0) == b
  {
  }

  /** A run of spaces ending before a non-space is the greedy run. */
  lemma RunEndIs(s: string, i: nat, e: nat)
    requires i <= e <= |s|
    requires forall k :: i <= k < e ==> s[k] == ' '
    requires e < |s| ==> s[e] != ' '
    ensures SpaceRunEnd(s, i) == e
  {
  }

  /** Where the parts of a piece, its spaces and the rest sit in the glued text. */
  lemma GluedParts(a: string, g: nat, rest: string)
    ensures (a + Spaces(g) + rest)[..|a|] == a
    ensures (a + Spaces(g) + rest)[|a| + g..] == rest
    ensures forall k :: |a| <= k < |a| + g ==> (a + Spaces(g) + rest)[k] == ' '
    ensures |a| + g < |a + Spaces(g) + rest| ==> (a + Spaces(g) + rest)[|a| + g] == rest[0]
  {
    assert a + Spaces(g) + rest == a + (Spaces(g) + rest);
  }

  /** A piece that closes a sentence is followed by a match. */
  lemma BreakAfterClosedPiece(a: string, g: nat, rest: string)
    requires ClosesSentence(Piece(a, g))
    ensures BreakAt(a + Spaces(g) + rest, |a|)
  {
  }

  /** Nothing before the end of a piece without a match is a match of the glued text. */
  lemma NoBreakBeforeEnd(a: string, g: nat, rest: string)
    requires NoBreakIn(a)
    ensures forall t | 0 <= t < |a| :: !BreakAt(a + Spaces(g) + rest, t)
  {
    var s := a + Spaces(g) + rest;
    forall t | 0 <= t < |a| ensures !BreakAt(s, t) {
      assert !BreakAt(a, t);
    }
  }

  /** After a piece that closes a sentence and holds no match, the scan's first
      match is right at its end, and takes exactly the spaces that follow it
      when the rest does not start with a space. */
  lemma ScanAfterClosedPiece(a: string, g: nat, rest: string)
    requires ClosesSentence(Piece(a, g)) && NoBreakIn(a) && NotSpaceLed(rest)
    ensures FindBreak(a + Spaces(g) + rest, 0) == |a|
    ensures SpaceRunEnd(a + Spaces(g) + rest, |a|) == |a| + g
  {
    BreakAfterClosedPiece(a, g, rest);
    NoBreakBeforeEnd(a, g, rest);
    FirstBreakIs(a + Spaces(g) + rest, |a|);
    GluedParts(a, g, rest);
    RunEndIs(a + Spaces(g) + rest, |a|, |a| + g);
  }

  /** A text without a match is one piece. */
  lemma SplitOfUnbroken(s: string)
    requires NoBreakIn(s)
    ensures Split(s) == [Piece(s, 0)]
  {
    assert !BreakAt(s, FindBreak(s, 0));
  }

  /** The scan of a text that starts with a closed piece. */
  lemma SplitAfterClosedPiece(a: string, g: nat, rest: string)
    requires ClosesSentence(Piece(a, g)) && NoBreakIn(a) && NotSpaceLed(rest)
    ensures Split(a + Spaces(g) + rest) == [Piece(a, g)] + Split(rest)
  {
    ScanAfterClosedPiece(a, g, rest);
    GluedParts(a, g, rest);
  }

  lemma {:induction false} SplitUnique(ps: seq<Piece>, s: string)
    requires IsSplitOf(ps, s)
    ensures ps == Split(s)
    decreases |ps|
  {
    if |ps| == 1 {
      RejoinCons(ps[0], []);
      assert ps == [ps[0]] + [];
      assert Spaces(0) == [] && Rejoin([]) == [];
      assert s == ps[0].sentence;
      SplitOfUnbroken(ps[0].sentence);
    } else {
      var tail := ps[1..];
      assert ps == [ps[0]] + tail;
      RejoinCons(ps[0], tail);
      WellShapedTail(ps);
      RestNotSpaceLed(ps);
      SplitAfterClosedPiece(ps[0].sentence, ps[0].gap, Rejoin(tail));
      SplitUnique(tail, Rejoin(tail));
    }
  }

  /** The scan computes exactly the split the pattern describes, and no other. */
  lemma SplitCharacterization(ps: seq<Piece>, s: string)
    ensures IsSplitOf(ps, s) <==> ps == Split(s)
  {
    if IsSplitOf(ps, s) { SplitUnique(ps, s); }
    if ps == Split(s) { SplitIsSplitOf(s); }
  }

  // ---------------------------------------------------------------------
  // What re.split returns.

  /** Every sentence but the last ends with a terminator; every sentence but
      the first starts with something other than a space, since the match
      consumed the whole run of spaces. */
  lemma ReSplitShape(text: string)
    ensures |ReSplit(text)| >= 1
    ensures forall k :: 0 <= k < |ReSplit(text)| - 1 ==>
              |ReSplit(text)[k]| >= 1 && IsTerminator(ReSplit(text)[k][|ReSplit(text)[k]| - 1])
    ensures forall k :: 0 < k < |ReSplit(text)| ==> NotSpaceLed(ReSplit(text)[k])
  {
    SplitIsSplitOf(text);
    var ps := Split(text);
    forall k | 0 <= k < |ps| - 1
      ensures |ReSplit(text)[k]| >= 1 && IsTerminator(ReSplit(text)[k][|ReSplit(text)[k]| - 1])
    {
      assert ClosesSentence(ps[k]);
    }
  }

  /** The text splits into a single piece exactly when no terminator in it is
      followed by a space. */
  lemma OnePieceIffNoBreak(text: string)
    ensures |ReSplit(text)| == 1 <==> NoBreakIn(text)
  {
    var i := FindBreak(text, 0);
    if i < |text| {
      var j := SpaceRunEnd(text, i);
      assert |Split(text)| == 1 + |Split(text[j..])|;
      assert BreakAt(text, i);
    } else {
      assert forall t :: !BreakAt(text, t);
    }
  }

  // ---------------------------------------------------------------------
  // The summary against the text.

  /** Joining the first m >= 2 sentences puts the first one, a space, and the join of the next m - 1. */
  lemma JoinFirst(ps: seq<Piece>, m: nat)
    requires 2 <= m <= |ps|
    ensures JoinWithSpace(Sentences(ps)[..m]) == ps[0].sentence + " " + JoinWithSpace(Sentences(ps[1..])[..m - 1])
  {
    assert Sentences(ps)[..m][1..] == Sentences(ps[1..])[..m - 1];
  }

  /** Joining only the first sentence gives that sentence. */
  lemma JoinOne(ps: seq<Piece>)
    requires 1 <= |ps|
    ensures JoinWithSpace(Sentences(ps)[..1]) == ps[0].sentence
  {
    assert Sentences(ps)[..1] == [ps[0].sentence];
  }

  /** The same text in front keeps a prefix a prefix. */
  lemma PrefixAfter(x: string, p: string, q: string)
    requires p <= q
    ensures x + p <= x + q
  {
    assert (x + q)[..|x + p|] == x + q[..|p|];
  }

  /** Joining the first m pieces with one space each gives no more characters
      than the text, whose separators hold at least one space each. */
  lemma {:induction false} JoinNotLonger(ps: seq<Piece>, m: nat)
    requires WellShaped(ps) && m <= |ps|
    ensures |JoinWithSpace(Sentences(ps)[..m])| <= |Rejoin(ps)|
    decreases m
  {
    if m >= 1 {
      assert ps == [ps[0]] + ps[1..];
      RejoinCons(ps[0], ps[1..]);
      if m == 1 {
        JoinOne(ps);
      } else {
        WellShapedTail(ps);
        JoinFirst(ps, m);
        JoinNotLonger(ps[1..], m - 1);
      }
    }
  }

  /** No separator in the pieces holds more than one space. */
  predicate SingleGaps(ps: seq<Piece>) {
    forall k :: 0 <= k < |ps| ==> ps[k].gap <= 1
  }

  /** Every separator but the last is exactly one space, and the last is empty. */
  predicate OneSpaceGaps(ps: seq<Piece>) {
    && |ps| >= 1
    && ps[|ps| - 1].gap == 0
    && forall k :: 0 <= k < |ps| - 1 ==> ps[k].gap == 1
  }

  /** A split whose separators hold at most one space each has exactly one
      space in every separator but the last. */
  lemma SingleGapsAreOneSpace(ps: seq<Piece>)
    requires WellShaped(ps) && SingleGaps(ps)
    ensures OneSpaceGaps(ps)
  {
    forall k | 0 <= k < |ps| - 1 ensures ps[k].gap == 1 {
      assert ClosesSentence(ps[k]);
    }
  }

  lemma OneSpaceGapsTail(ps: seq<Piece>)
    requires OneSpaceGaps(ps) && |ps| >= 2
    ensures OneSpaceGaps(ps[1..]) && ps[0].gap == 1
  {
    forall k | 0 <= k < |ps| - 2 ensures ps[1..][k].gap == 1 { assert ps[1..][k] == ps[k + 1]; }
  }

  /** When every separator is a single space, joining the first m pieces with
      one space gives a prefix of the text, and the whole text for all pieces. */
  lemma {:induction false} JoinIsPrefix(ps: seq<Piece>, m: nat)
    requires OneSpaceGaps(ps) && m <= |ps|
    ensures JoinWithSpace(Sentences(ps)[..m]) <= Rejoin(ps)
    ensures m == |ps| ==> JoinWithSpace(Sentences(ps)[..m]) == Rejoin(ps)
    decreases m
  {
    if m == 1 {
      JoinOne(ps);
      if |ps| == 1 {
        assert Spaces(0) == [] && Rejoin(ps[1..]) == [];
      }
    } else if m >= 2 {
      var tail := ps[1..];
      OneSpaceGapsTail(ps);
      assert Spaces(ps[0].gap) == " ";
      JoinFirst(ps, m);
      JoinIsPrefix(tail, m - 1);
      PrefixAfter(ps[0].sentence + " ", JoinWithSpace(Sentences(tail)[..m - 1]), Rejoin(tail));
    }
  }

  /** What follows a match in a single-spaced text is single-spaced too. */
  lemma SingleSpacedSuffix(s: string, j: nat)
    requires SingleSpaced(s) && j <= |s|
    ensures SingleSpaced(s[j..])
  {
    forall t | BreakAt(s[j..], t) ensures t + 1 == |s[j..]| || s[j..][t + 1] != ' ' {
      BreakInSuffix(s, j, t);
    }
  }

  /** In a single-spaced text every separator the split consumes is one space. */
  lemma {:induction false} SingleSpacedGaps(s: string)
    requires SingleSpaced(s)
    ensures SingleGaps(Split(s))
    decreases |s|
  {
    var i := FindBreak(s, 0);
    if i < |s| {
      var j := SpaceRunEnd(s, i);
      var tail := Split(s[j..]);
      var ps := [Piece(s[..i], j - i)] + tail;
      assert Split(s) == ps;
      // a second space after the terminator would contradict SingleSpaced
      assert j - i <= 1;
      SingleSpacedSuffix(s, j);
      SingleSpacedGaps(s[j..]);
      forall k | 1 <= k < |ps| ensures ps[k] == tail[k - 1] { }
    }
  }

  /** When every terminator is followed by at most one space, the summary is a
      prefix of the text. */
  lemma SummaryIsPrefix(text: string, maxSentences: int)
    requires SingleSpaced(text)
    ensures Summarize(text, maxSentences) <= text
  {
    var ps := Split(text);
    SplitIsSplitOf(text);
    SingleSpacedGaps(text);
    SingleGapsAreOneSpace(ps);
    JoinIsPrefix(ps, SliceEnd(|ps|, maxSentences));
  }

  /** A single-spaced text with no more sentences than asked for is its own summary. */
  lemma SummaryOfShortText(text: string, maxSentences: int)
    requires SingleSpaced(text) && maxSentences >= |ReSplit(text)|
    ensures Summarize(text, maxSentences) == text
  {
    var ps := Split(text);
    SplitIsSplitOf(text);
    SingleSpacedGaps(text);
    SingleGapsAreOneSpace(ps);
    JoinIsPrefix(ps, |ps|);
  }

  /** A text in which no terminator is followed by a space is its own summary. */
  lemma SummaryOfUnbrokenText(text: string, maxSentences: int)
    requires NoBreakIn(text) && maxSentences >= 1
    ensures Summarize(text, maxSentences) == text
  {
    OnePieceIffNoBreak(text);
    assert Split(text) == [Piece(text, 0)];
  }
}
