/**
 The two regular expressions on the service-request tag: re.search and re.sub with the pattern
 <service_request>.*?</service_request>, where '.' matches every character.
 */
module Tags {
  import opened Common

  const OPEN := "<service_request>"
  const CLOSE := "</service_request>"

  predicate OccursAt(text: string, tag: string, i: nat) {
    i + |tag| <= |text| && text[i..i + |tag|] == tag
  }

  ghost predicate Contains(text: string, tag: string) {
    exists i: nat :: OccursAt(text, tag, i)
  }

  /** A match of the pattern: an opening tag at `open` and, after it, a closing tag at `close`. */
  datatype Match = Match(open: nat, close: nat)

  predicate IsMatch(text: string, m: Match) {
    OccursAt(text, OPEN, m.open) && m.open + |OPEN| <= m.close && OccursAt(text, CLOSE, m.close)
  }

  /** A complete block somewhere in the text. */
  ghost predicate HasBlock(text: string) {
    exists m :: IsMatch(text, m)
  }

  /** What a leftmost, non-greedy search means: no match starts earlier, none from there ends earlier. */
  ghost predicate LeftmostNonGreedy(text: string, m: Match) {
    && IsMatch(text, m)
    && forall other | IsMatch(text, other) ::
         m.open <= other.open && (m.open == other.open ==> m.close <= other.close)
  }

  /** text.find(tag, from) */
  function FindFrom(text: string, tag: string, from: nat): (r: Option<nat>)
    ensures r.Some? ==> from <= r.value && OccursAt(text, tag, r.value)
    ensures forall i: nat | from <= i && (r.Some? ==> i < r.value) :: !OccursAt(text, tag, i)
    decreases |text| - from
  {
    if from + |tag| > |text| then None
    else if OccursAt(text, tag, from) then Some(from)
    else FindFrom(text, tag, from + 1)
  }

  /** First opening tag, then the first closing tag after it. */
  function Search(text: string): Option<Match> {
    var open := FindFrom(text, OPEN, 0);
    if open.None? then None
    else
      var close := FindFrom(text, CLOSE, open.value + |OPEN|);
      if close.None? then None else Some(Match(open.value, close.value))
  }

  /** Find-first-open, find-first-close computes the leftmost non-greedy match, and fails only when there is none. */
  lemma SearchIsLeftmostNonGreedy(text: string, m: Match)
    ensures Search(text) == Some(m) <==> LeftmostNonGreedy(text, m)
    ensures Search(text).None? <==> !HasBlock(text)
  {
    var open := FindFrom(text, OPEN, 0);
    if open.Some? {
      var close := FindFrom(text, CLOSE, open.value + |OPEN|);
      if close.Some? {
        assert IsMatch(text, Match(open.value, close.value));
      }
    }
    if Search(text).Some? && LeftmostNonGreedy(text, m) {
      var found := Search(text).value;
      assert IsMatch(text, found);
      assert m == found;
    }
  }

  /** match.group(1) */
  function Payload(text: string, m: Match): string
    requires IsMatch(text, m)
  {
    text[m.open + |OPEN|..m.close]
  }

  function BlockEnd(m: Match): nat {
    m.close + |CLOSE|
  }

  lemma SearchFinds(text: string)
    ensures Search(text).Some? ==> IsMatch(text, Search(text).value)
  {
  }

  /** re.sub with an empty replacement. */
  function RemoveBlocks(text: string): string
    decreases |text|
  {
    var found := Search(text);
    if found.None? then text
    else text[..found.value.open] + RemoveBlocks(text[BlockEnd(found.value)..])
  }

  /** The scan that re.sub makes over one text, from match to match. */
  method RemoveBlocksScan(text: string) returns (out: string)
    ensures out == RemoveBlocks(text)
  {
    out := "";
    var rest := text;
    var found := Search(rest);
    while found.Some?
      invariant out + RemoveBlocks(rest) == RemoveBlocks(text)
      invariant found == Search(rest)
      decreases |rest|
    {
      var m := found.value;
      assert RemoveBlocks(rest) == rest[..m.open] + RemoveBlocks(rest[BlockEnd(m)..]);
      out := out + rest[..m.open];
      rest := rest[BlockEnd(m)..];
      found := Search(rest);
    }
    out := out + rest;
  }

  // ---------------------------------------------------------------------------------------------
  // The unique split of a text into gaps and blocks.

  datatype Split =
    | Tail(gap: string)
    | Block(gap: string, payload: string, next: Split)

  function Rebuild(s: Split): string {
    match s
    case Tail(gap) => gap
    case Block(gap, payload, next) => gap + OPEN + payload + CLOSE + Rebuild(next)
  }

  function Gaps(s: Split): string {
    match s
    case Tail(gap) => gap
    case Block(gap, _, next) => gap + Gaps(next)
  }

  /** No gap before a block holds an opening tag, no payload a closing tag, the last gap no block. */
  ghost predicate ValidSplit(s: Split) {
    match s
    case Tail(gap) => !HasBlock(gap)
    case Block(gap, payload, next) => !Contains(gap, OPEN) && !Contains(payload, CLOSE) && ValidSplit(next)
  }

  /** The first character of a tag does not come again in it, so two occurrences never overlap. */
  predicate FreshHead(tag: string) {
    tag != [] && forall k | 0 < k < |tag| :: tag[k] != tag[0]
  }

  lemma TagsHaveFreshHeads()
    ensures FreshHead(OPEN) && FreshHead(CLOSE)
  {
  }

  lemma SliceOfSlice(text: string, from: nat, to: nat, a: nat, b: nat)
    requires from <= to <= |text| && a <= b <= to - from
    ensures text[from..to][a..b] == text[from + a..from + b]
  {
    var part, whole := text[from..to][a..b], text[from + a..from + b];
    forall k | 0 <= k < b - a
      ensures part[k] == whole[k]
    {
      assert part[k] == text[from..to][a + k] == text[from + (a + k)];
    }
  }

  lemma OccursInPart(text: string, tag: string, from: nat, to: nat, i: nat)
    requires from <= i && i + |tag| <= to <= |text|
    ensures OccursAt(text, tag, i) <==> OccursAt(text[from..to], tag, i - from)
  {
    SliceOfSlice(text, from, to, i - from, i - from + |tag|);
  }

  /** After text without the tag, the first occurrence is the one that is put there. */
  lemma FirstOccurrence(text: string, tag: string, from: nat, n: nat)
    requires FreshHead(tag) && from <= n && OccursAt(text, tag, n) && !Contains(text[from..n], tag)
    ensures FindFrom(text, tag, from) == Some(n)
  {
    forall i: nat | from <= i < n
      ensures !OccursAt(text, tag, i)
    {
      if i + |tag| <= n {
        OccursInPart(text, tag, from, n, i);
      } else {
        assert text[n] == text[n..n + |tag|][0] == tag[0];
        assert i + |tag| <= |text| ==> text[i..i + |tag|][n - i] == text[n];
      }
    }
  }

  /** The round trip of one block through the search. */
  lemma SearchRoundTrip(prose: string, payload: string, rest: string)
    requires !Contains(prose, OPEN) && !Contains(payload, CLOSE)
    ensures var text := prose + OPEN + payload + CLOSE + rest;
            var m := Match(|prose|, |prose| + |OPEN| + |payload|);
            && IsMatch(text, m)
            && Search(text) == Some(m)
            && Payload(text, m) == payload && text[..m.open] == prose && text[BlockEnd(m)..] == rest
  {
    TagsHaveFreshHeads();
    BlockParts(prose, OPEN, payload, CLOSE, rest);
    SearchFindsBlock(prose + OPEN + payload + CLOSE + rest, Match(|prose|, |prose| + |OPEN| + |payload|));
  }

  lemma SearchFindsBlock(text: string, m: Match)
    requires FreshHead(OPEN) && FreshHead(CLOSE) && IsMatch(text, m)
    requires !Contains(text[..m.open], OPEN) && !Contains(Payload(text, m), CLOSE)
    ensures Search(text) == Some(m)
  {
    assert text[0..m.open] == text[..m.open];
    FirstOccurrence(text, OPEN, 0, m.open);
    FirstOccurrence(text, CLOSE, m.open + |OPEN|, m.close);
  }

  lemma BlockParts(prose: string, open: string, payload: string, close: string, rest: string)
    ensures var text := prose + open + payload + close + rest;
            var from, to := |prose| + |open|, |prose| + |open| + |payload|;
            && text == prose + open + (payload + close + rest)
            && text[..|prose|] == prose && text[|prose|..from] == open
            && text[from..] == payload + close + rest
            && text[from..to] == payload && text[to..to + |close|] == close && text[to + |close|..] == rest
  {
  }

  /** The split that re.sub follows. */
  function SplitOf(text: string): Split
    decreases |text|
  {
    var found := Search(text);
    if found.None? then Tail(text)
    else Block(text[..found.value.open], Payload(text, found.value), SplitOf(text[BlockEnd(found.value)..]))
  }

  lemma PartHoldsNoTag(text: string, tag: string, from: nat, to: nat)
    requires from <= to <= |text|
    requires forall i: nat | from <= i < to :: !OccursAt(text, tag, i)
    requires tag != []
    ensures !Contains(text[from..to], tag)
  {
    forall i: nat
      ensures !OccursAt(text[from..to], tag, i)
    {
      if i + |tag| <= to - from {
        OccursInPart(text, tag, from, to, i + from);
      }
    }
  }

  lemma CutAt(text: string, a: nat, b: nat, c: nat, d: nat)
    requires a <= b <= c <= d <= |text|
    ensures text == text[..a] + text[a..b] + text[b..c] + text[c..d] + text[d..]
  {
  }

  /** Every text has a valid split that rebuilds it and whose gaps are what the substitution leaves. */
  lemma {:induction false} SplitOfText(text: string)
    ensures ValidSplit(SplitOf(text)) && Rebuild(SplitOf(text)) == text && Gaps(SplitOf(text)) == RemoveBlocks(text)
    decreases |text|
  {
    var found := Search(text);
    if found.None? {
      SearchIsLeftmostNonGreedy(text, Match(0, 0));
    } else {
      var m := found.value;
      SplitOfText(text[BlockEnd(m)..]);
      PartHoldsNoTag(text, OPEN, 0, m.open);
      PartHoldsNoTag(text, CLOSE, m.open + |OPEN|, m.close);
      CutAt(text, m.open, m.open + |OPEN|, m.close, BlockEnd(m));
    }
  }

  /** The valid split of a text is the one the substitution follows: there is no other. */
  lemma {:induction false} SplitUnique(s: Split)
    requires ValidSplit(s)
    ensures SplitOf(Rebuild(s)) == s
    decreases s
  {
    match s
    case Tail(gap) =>
      SearchIsLeftmostNonGreedy(gap, Match(0, 0));
    case Block(gap, payload, next) =>
      SearchRoundTrip(gap, payload, Rebuild(next));
      SplitUnique(next);
  }

  /** So the substitution of any text put together from gaps and blocks is its gaps. */
  lemma RemoveBlocksOfSplit(s: Split)
    requires ValidSplit(s)
    ensures RemoveBlocks(Rebuild(s)) == Gaps(s)
  {
    SplitUnique(s);
    SplitOfText(Rebuild(s));
  }

  lemma {:induction false} RemoveBlocksShortens(text: string)
    ensures |RemoveBlocks(text)| <= |text|
    ensures RemoveBlocks(text) == text <==> Search(text).None?
    decreases |text|
  {
    var found := Search(text);
    if found.None? {
    } else {
      RemoveBlocksShortens(text[BlockEnd(found.value)..]);
    }
  }

  // ---------------------------------------------------------------------------------------------
  // When removing blocks leaves, or even makes, an opening tag.

  /** The tag is spelled by the last n characters of a and the start of b. */
  predicate SeamAt(a: string, b: string, tag: string, n: nat) {
    0 < n < |tag| && EndsWith(a, tag[..n]) && tag[n..] <= b
  }

  /** The tag is spelled across the end of a and the start of b. */
  ghost predicate Seam(a: string, b: string, tag: string) {
    exists n: nat :: SeamAt(a, b, tag, n)
  }

  predicate EndsWith(s: string, end: string) {
    |end| <= |s| && s[|s| - |end|..] == end
  }

  /** The last gap has an unclosed opening tag, or the text on the two sides of a removed block spells one. */
  ghost predicate LeavesTag(s: Split) {
    match s
    case Tail(gap) => Contains(gap, OPEN)
    case Block(gap, _, next) => LeavesTag(next) || Seam(gap, Gaps(next), OPEN)
  }

  lemma OccursAcross(a: string, b: string, tag: string, i: nat)
    requires i < |a| < i + |tag|
    ensures OccursAt(a + b, tag, i) <==> SeamAt(a, b, tag, |a| - i)
  {
    var n := |a| - i;
    assert tag == tag[..n] + tag[n..];
    if i + |tag| <= |a + b| {
      assert (a + b)[i..i + |tag|] == a[i..] + b[..|tag| - n];
      assert (a[i..] + b[..|tag| - n])[..n] == a[i..] && (a[i..] + b[..|tag| - n])[n..] == b[..|tag| - n];
    }
  }

  lemma OccurrenceInConcat(a: string, b: string, tag: string, i: nat)
    requires tag != [] && !Contains(a, tag) && OccursAt(a + b, tag, i)
    ensures Contains(b, tag) || Seam(a, b, tag)
  {
    assert (a + b)[|a|..|a + b|] == b && (a + b)[0..|a|] == a;
    if |a| <= i {
      OccursInPart(a + b, tag, |a|, |a + b|, i);
    } else if i + |tag| <= |a| {
      OccursInPart(a + b, tag, 0, |a|, i);
    } else {
      OccursAcross(a, b, tag, i);
    }
  }

  lemma ConcatContains(a: string, b: string, tag: string)
    requires Contains(b, tag) || Seam(a, b, tag)
    ensures Contains(a + b, tag)
  {
    if Contains(b, tag) {
      var i: nat :| OccursAt(b, tag, i);
      assert (a + b)[|a|..|a + b|] == b;
      OccursInPart(a + b, tag, |a|, |a + b|, i + |a|);
      assert OccursAt(a + b, tag, i + |a|);
    } else {
      var n: nat :| SeamAt(a, b, tag, n);
      OccursAcross(a, b, tag, |a| - n);
      assert OccursAt(a + b, tag, |a| - n);
    }
  }

  lemma ContainsInConcat(a: string, b: string, tag: string)
    requires tag != [] && !Contains(a, tag)
    ensures Contains(a + b, tag) <==> Contains(b, tag) || Seam(a, b, tag)
  {
    if Contains(a + b, tag) {
      var i: nat :| OccursAt(a + b, tag, i);
      OccurrenceInConcat(a, b, tag, i);
    }
    if Contains(b, tag) || Seam(a, b, tag) {
      ConcatContains(a, b, tag);
    }
  }

  /** Exactly when an opening tag is left in the text that is spoken. */
  lemma {:induction false} OpeningTagLeftIff(text: string)
    ensures Contains(RemoveBlocks(text), OPEN) <==> LeavesTag(SplitOf(text))
    decreases |text|
  {
    SplitOfText(text);
    if Search(text).None? {
    } else {
      var rest := text[BlockEnd(Search(text).value)..];
      OpeningTagLeftIff(rest);
      SplitOfText(rest);
      ContainsInConcat(SplitOf(text).gap, RemoveBlocks(rest), OPEN);
    }
  }

  lemma TooShort(s: string, tag: string)
    requires |s| < |tag|
    ensures !Contains(s, tag)
  {
  }

  lemma EmptyPayload(left: string, open: string, close: string, right: string)
    ensures left + open + [] + close + right == left + open + close + right
  {
    assert open + [] == open;
  }

  /** So the tags are not always stripped: an opening tag cut in two by a block is put together again. */
  lemma RemovalMakesTag(left: string, right: string)
    requires left + right == OPEN && left != [] && right != []
    ensures RemoveBlocks(left + OPEN + CLOSE + right) == OPEN
  {
    TooShort(left, OPEN);
    TooShort([], CLOSE);
    TooShort(right, OPEN);
    EmptyPayload(left, OPEN, CLOSE, right);
    RemoveBlocksOfSplit(Block(left, [], Tail(right)));
  }

  /** One such reply. */
  lemma SplitTagSurvives() returns (left: string, right: string)
    ensures left == "<service_" && right == "request>"
    ensures RemoveBlocks(left + OPEN + CLOSE + right) == OPEN && Contains(OPEN, OPEN)
  {
    left, right := "<service_", "request>";
    assert left + right == OPEN;
    RemovalMakesTag(left, right);
    assert OccursAt(OPEN, OPEN, 0);
  }

  // ---------------------------------------------------------------------------------------------
  // When removing blocks leaves a whole block.

  /** The opening tag spelled on the two sides of a removed block has a closing tag after it. */
  ghost predicate MakesBlock(gap: string, rest: string) {
    exists n: nat :: SeamAt(gap, rest, OPEN, n) && Contains(rest[|OPEN| - n..], CLOSE)
  }

  ghost predicate LeavesBlock(s: Split) {
    match s
    case Tail(_) => false
    case Block(gap, _, next) => LeavesBlock(next) || MakesBlock(gap, Gaps(next))
  }

  /** A tag in the part of a + b that starts in b. */
  lemma ContainsAfter(a: string, b: string, tag: string, from: nat, i: nat)
    requires from <= |b| && |a| + from <= i
    ensures OccursAt(a + b, tag, i) <==> OccursAt(b[from..], tag, i - |a| - from)
  {
    var whole := a + b;
    assert whole[|a| + from..|whole|] == b[from..];
    if i + |tag| <= |whole| {
      OccursInPart(whole, tag, |a| + from, |whole|, i);
    }
  }

  lemma BlockInConcat(a: string, b: string, m: Match)
    requires !Contains(a, OPEN) && IsMatch(a + b, m)
    ensures HasBlock(b) || MakesBlock(a, b)
  {
    assert b[0..] == b;
    if |a| <= m.open {
      ContainsAfter(a, b, OPEN, 0, m.open);
      ContainsAfter(a, b, CLOSE, 0, m.close);
      assert IsMatch(b, Match(m.open - |a|, m.close - |a|));
    } else {
      TagNotWithin(a, b, m.open);
      var n := |a| - m.open;
      OccursAcross(a, b, OPEN, m.open);
      ContainsAfter(a, b, CLOSE, |OPEN| - n, m.close);
    }
  }

  lemma TagNotWithin(a: string, b: string, i: nat)
    requires !Contains(a, OPEN) && OccursAt(a + b, OPEN, i)
    ensures |a| < i + |OPEN|
  {
    if i + |OPEN| <= |a| {
      assert (a + b)[0..|a|] == a;
      OccursInPart(a + b, OPEN, 0, |a|, i);
    }
  }

  lemma BlockAfter(a: string, b: string)
    requires HasBlock(b)
    ensures HasBlock(a + b)
  {
    var m :| IsMatch(b, m);
    assert b[0..] == b;
    ContainsAfter(a, b, OPEN, 0, m.open + |a|);
    ContainsAfter(a, b, CLOSE, 0, m.close + |a|);
    assert IsMatch(a + b, Match(m.open + |a|, m.close + |a|));
  }

  lemma MatchAcross(a: string, b: string, n: nat, i: nat)
    requires SeamAt(a, b, OPEN, n) && OccursAt(b[|OPEN| - n..], CLOSE, i)
    ensures IsMatch(a + b, Match(|a| - n, |a| - n + |OPEN| + i))
  {
    OccursAcross(a, b, OPEN, |a| - n);
    ContainsAfter(a, b, CLOSE, |OPEN| - n, |a| - n + |OPEN| + i);
  }

  lemma BlockAcross(a: string, b: string)
    requires MakesBlock(a, b)
    ensures HasBlock(a + b)
  {
    var n: nat :| SeamAt(a, b, OPEN, n) && Contains(b[|OPEN| - n..], CLOSE);
    var i: nat :| OccursAt(b[|OPEN| - n..], CLOSE, i);
    MatchAcross(a, b, n, i);
  }

  /**
   Exactly when the cleaned text still has a complete block, that is, when cleaning it again would take more away:
   the two sides of a removed block spell an opening tag, and a closing tag is left after it.
   */
  lemma {:induction false} BlockLeftIff(text: string)
    ensures HasBlock(RemoveBlocks(text)) <==> LeavesBlock(SplitOf(text))
    ensures RemoveBlocks(RemoveBlocks(text)) == RemoveBlocks(text) <==> !LeavesBlock(SplitOf(text))
    decreases |text|
  {
    SearchIsLeftmostNonGreedy(RemoveBlocks(text), Match(0, 0));
    RemoveBlocksShortens(RemoveBlocks(text));
    if Search(text).None? {
    } else {
      var gap, rest := SplitOf(text).gap, text[BlockEnd(Search(text).value)..];
      BlockLeftIff(rest);
      SplitOfText(rest);
      SplitOfText(text);
      if HasBlock(gap + RemoveBlocks(rest)) {
        var m :| IsMatch(gap + RemoveBlocks(rest), m);
        BlockInConcat(gap, RemoveBlocks(rest), m);
      }
      if HasBlock(RemoveBlocks(rest)) {
        BlockAfter(gap, RemoveBlocks(rest));
      }
      if MakesBlock(gap, RemoveBlocks(rest)) {
        BlockAcross(gap, RemoveBlocks(rest));
      }
    }
  }
}
