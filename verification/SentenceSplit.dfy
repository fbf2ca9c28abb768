/** Splitting a text behind sentence marks and newlines, as the lookbehind split of the source
    does (packages/shared/src/similarity.ts). */
module SentenceSplit {

  /** JavaScript's white space. */
  predicate IsSpace(c: char) {
    c in " \t\n\r\U{000B}\U{000C}\U{00A0}\U{1680}\U{2028}\U{2029}\U{202F}\U{205F}\U{3000}\U{FEFF}"
    || '\U{2000}' <= c <= '\U{200A}'
  }

  predicate IsMark(c: char) { c in ".!?\n" }

  /** White space behind a mark separates two sentences. */
  predicate SeparatorAt(s: string, i: nat) {
    0 < i < |s| && IsMark(s[i - 1]) && IsSpace(s[i])
  }

  /** The end of the run of white space at `i`. */
  function SkipSpace(s: string, i: nat): (e: nat)
    requires i <= |s|
    ensures i <= e <= |s| && (e < |s| ==> !IsSpace(s[e]))
    ensures forall k :: i <= k < e ==> IsSpace(s[k])
    decreases |s| - i
  {
    if i < |s| && IsSpace(s[i]) then SkipSpace(s, i + 1) else i
  }

  /** The pieces of `s[start..]`, where `s[start..i]` holds no separator. */
  function SplitFrom(s: string, start: nat, i: nat): seq<string>
    requires start <= i <= |s|
    decreases |s| - i
  {
    if i == |s| then [s[start..]]
    else if SeparatorAt(s, i) then
      var e := SkipSpace(s, i);
      assert IsSpace(s[i]) && e > i;
      [s[start..i]] + SplitFrom(s, e, e)
    else SplitFrom(s, start, i + 1)
  }

  function NonEmpty(parts: seq<string>): seq<string> {
    if parts == [] then []
    else if parts[0] == "" then NonEmpty(parts[1..])
    else [parts[0]] + NonEmpty(parts[1..])
  }

  function Sentences(content: string): seq<string> {
    NonEmpty(SplitFrom(content, 0, 0))
  }

  predicate Begun(part: string) { part != "" && !IsSpace(part[0]) }

  predicate Ended(part: string) { part != "" && IsMark(part[|part| - 1]) }

  /** Pieces behind a separator begin with something other than white space, pieces before one
      end in a mark. */
  ghost predicate WellSplit(parts: seq<string>) {
    && (forall k :: 0 <= k < |parts| ==> parts[k] != "")
    && (forall k :: 0 < k < |parts| ==> Begun(parts[k]))
    && (forall k :: 0 <= k < |parts| - 1 ==> Ended(parts[k]))
  }

  lemma NonEmptyPrepend(piece: string, parts: seq<string>)
    requires piece != ""
    ensures NonEmpty([piece] + parts) == [piece] + NonEmpty(parts)
  {
    assert ([piece] + parts)[1..] == parts;
  }

  lemma PrependPiece(piece: string, rest: seq<string>)
    requires Ended(piece) && WellSplit(rest) && (rest == [] || Begun(rest[0]))
    ensures WellSplit([piece] + rest)
  {
  }

  /** What the rest of the text splits into, when the piece at hand is `s[start..i]`. */
  lemma {:induction false} RestIsWellSplit(s: string, start: nat, i: nat)
    requires start <= i <= |s| && (i == start ==> start == 0 || start == |s| || !IsSpace(s[start]))
    requires i > start || start == 0 || i == |s| || !SeparatorAt(s, i)
    ensures WellSplit(NonEmpty(SplitFrom(s, start, i)))
    ensures var parts := NonEmpty(SplitFrom(s, start, i));
      parts == [] || start == |s| || (parts[0][0] == s[start])
    decreases |s| - i
  {
    if i == |s| {
    } else if SeparatorAt(s, i) {
      var e := SkipSpace(s, i);
      RestIsWellSplit(s, e, e);
      assert s[start..i] != "" && s[start..i][i - start - 1] == s[i - 1];
      NonEmptyPrepend(s[start..i], SplitFrom(s, e, e));
      PrependPiece(s[start..i], NonEmpty(SplitFrom(s, e, e)));
    } else {
      RestIsWellSplit(s, start, i + 1);
    }
  }

  lemma SentencesAreWellSplit(content: string)
    ensures WellSplit(Sentences(content))
  {
    RestIsWellSplit(content, 0, 0);
  }

  /* ------------------------------- nothing else is lost ------------------------------- */

  /** A mark ends at `a`, and the white space behind it reaches up to `b`. */
  ghost predicate GapAt(s: string, a: nat, b: nat) {
    && 0 < a < b <= |s| && s[a - 1] in {'.', '!', '?', '\n'}
    && (forall i :: a <= i < b ==> IsSpace(s[i])) && (b < |s| ==> !IsSpace(s[b]))
  }

  /** No mark inside is followed by white space inside. */
  ghost predicate Whole(s: string, a: nat, b: nat)
    requires b <= |s|
  {
    forall i :: a < i < b ==> !(s[i - 1] in {'.', '!', '?', '\n'} && IsSpace(s[i]))
  }

  /** The text from `start` on is the parts in order, with a gap behind each but the last, or
      behind each. */
  ghost predicate CutFrom(s: string, start: nat, parts: seq<string>)
    decreases |parts|
  {
    if parts == [] then start == |s|
    else
      var end := start + |parts[0]|;
      && start < end <= |s| && parts[0] == s[start..end] && Whole(s, start, end)
      && if end == |s| then |parts| == 1 else exists e: nat :: GapAt(s, end, e) && CutFrom(s, e, parts[1..])
  }

  lemma CutBefore(s: string, start: nat, i: nat, e: nat, rest: seq<string>)
    requires start < i < e <= |s| && Whole(s, start, i) && GapAt(s, i, e) && CutFrom(s, e, rest)
    ensures CutFrom(s, start, [s[start..i]] + rest)
  {
    assert ([s[start..i]] + rest)[1..] == rest;
  }

  lemma {:induction false} RestIsCut(s: string, start: nat, i: nat)
    requires start <= i <= |s| && Whole(s, start, i)
    requires i == start ==> start == 0 || start == |s| || !IsSpace(s[start])
    ensures CutFrom(s, start, NonEmpty(SplitFrom(s, start, i)))
    decreases |s| - i
  {
    if i == |s| {
      if start < |s| {
        assert s[start..] == s[start..|s|] && [s[start..]] + [] == [s[start..]];
        NonEmptyPrepend(s[start..], []);
      }
    } else if SeparatorAt(s, i) {
      var e := SkipSpace(s, i);
      var rest := NonEmpty(SplitFrom(s, e, e));
      RestIsCut(s, e, e);
      NonEmptyPrepend(s[start..i], SplitFrom(s, e, e));
      CutBefore(s, start, i, e, rest);
    } else {
      RestIsCut(s, start, i + 1);
    }
  }

  /** The sentences and the gaps between them make up the whole text. */
  lemma SentencesAreCut(content: string)
    ensures CutFrom(content, 0, Sentences(content))
  {
    RestIsCut(content, 0, 0);
  }

  /** There is only one way to cut a text like that. */
  lemma {:induction false} CutIsUnique(s: string, start: nat, parts: seq<string>, others: seq<string>)
    requires CutFrom(s, start, parts) && CutFrom(s, start, others)
    ensures parts == others
    decreases |parts|
  {
    if parts != [] && others != [] {
      var a, b := start + |parts[0]|, start + |others[0]|;
      SameEnd(s, start, a, b);
      if a < |s| {
        var e: nat :| GapAt(s, a, e) && CutFrom(s, e, parts[1..]);
        var f: nat :| GapAt(s, b, f) && CutFrom(s, f, others[1..]);
        assert e == f;
        CutIsUnique(s, e, parts[1..], others[1..]);
      }
      assert parts == [parts[0]] + parts[1..] && others == [others[0]] + others[1..];
    }
  }

  lemma SameEnd(s: string, start: nat, a: nat, b: nat)
    requires start < a <= |s| && start < b <= |s| && Whole(s, start, a) && Whole(s, start, b)
    requires a == |s| || exists e: nat :: GapAt(s, a, e)
    requires b == |s| || exists e: nat :: GapAt(s, b, e)
    ensures a == b
  {
    assert a < |s| ==> IsSpace(s[a]);
    assert b < |s| ==> IsSpace(s[b]);
  }
}
