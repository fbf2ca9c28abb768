/** The token estimate of a text: its length after collapsing white space, over a ratio that
    depends on whether it looks like code (packages/shared/src/similarity.ts). */
module TokenEstimates {
  import opened Basics

  /* ------------------------------- collapsing ------------------------------- */

  predicate IsBlank(c: char) { c == ' ' || c == '\t' }

  predicate EndsInBlank(s: string) { s != "" && IsBlank(s[|s| - 1]) }

  predicate StartsSolid(s: string) { s != "" && !IsBlank(s[0]) }

  /** Every run of blanks and tabs becomes one blank. */
  function CollapseBlanks(s: string): string {
    if s == "" then ""
    else
      var init, c := s[..|s| - 1], s[|s| - 1];
      if !IsBlank(c) then CollapseBlanks(init) + [c]
      else if EndsInBlank(init) then CollapseBlanks(init)
      else CollapseBlanks(init) + " "
  }

  predicate EndsInTwoNewlines(s: string) {
    |s| >= 2 && s[|s| - 1] == '\n' && s[|s| - 2] == '\n'
  }

  /** Every run of three or more newlines becomes two. */
  function CollapseNewlines(s: string): string {
    if s == "" then ""
    else
      var init, c := s[..|s| - 1], s[|s| - 1];
      if c == '\n' && EndsInTwoNewlines(init) then CollapseNewlines(init) else CollapseNewlines(init) + [c]
  }

  function Collapse(s: string): string { CollapseNewlines(CollapseBlanks(s)) }

  /** What joins a text to the next one after collapsing: nothing new if a blank is there. */
  function Gap(s: string): string { if EndsInBlank(s) then "" else " " }

  lemma {:induction false} BlanksOfJoin(a: string, b: string)
    requires EndsInBlank(a) && (b == "" || StartsSolid(b))
    ensures CollapseBlanks(a + b) == CollapseBlanks(a) + CollapseBlanks(b)
  {
    if b == "" {
      assert a + b == a;
    } else {
      var init, c := b[..|b| - 1], b[|b| - 1];
      BlanksOfJoin(a, init);
      assert (a + b)[..|a + b| - 1] == a + init;
      assert EndsInBlank(a + init) <==> init == "" || EndsInBlank(init);
      assert CollapseBlanks(a + b) == CollapseBlanks(a) + CollapseBlanks(b);
    }
  }

  lemma {:induction false} NewlinesOfJoin(x: string, y: string)
    requires x != "" && x[|x| - 1] == ' '
    ensures CollapseNewlines(x + y) == CollapseNewlines(x) + CollapseNewlines(y)
  {
    if y == "" {
      assert x + y == x;
    } else {
      var init := y[..|y| - 1];
      NewlinesOfJoin(x, init);
      assert (x + y)[..|x + y| - 1] == x + init;
      assert EndsInTwoNewlines(x + init) <==> EndsInTwoNewlines(init);
    }
  }

  lemma {:induction false} CollapsedEndsInBlank(s: string)
    requires EndsInBlank(s)
    ensures CollapseBlanks(s) != "" && CollapseBlanks(s)[|CollapseBlanks(s)| - 1] == ' '
  {
    if EndsInBlank(s[..|s| - 1]) {
      CollapsedEndsInBlank(s[..|s| - 1]);
    }
  }

  /** Joining with a blank joins the collapsed texts with a blank, unless one is there. */
  lemma CollapseOfJoin(a: string, b: string)
    requires StartsSolid(b)
    ensures Collapse(a + " " + b) == Collapse(a) + Gap(a) + Collapse(b)
  {
    var z := a + " ";
    assert z[..|z| - 1] == a;
    BlanksOfJoin(z, b);
    CollapsedEndsInBlank(z);
    NewlinesOfJoin(CollapseBlanks(z), CollapseBlanks(b));
    if !EndsInBlank(a) {
      assert CollapseBlanks(z)[..|CollapseBlanks(z)| - 1] == CollapseBlanks(a);
    }
    assert Collapse(a) + "" == Collapse(a);
  }

  lemma {:induction false} CollapseShortens(s: string)
    ensures |CollapseBlanks(s)| <= |s| && |CollapseNewlines(s)| <= |s|
  {
    if s != "" {
      CollapseShortens(s[..|s| - 1]);
    }
  }

  /* ------------------------------- which characters stay ------------------------------- */

  ghost predicate SecondBlank(s: string, i: nat)
    requires i < |s|
  {
    i > 0 && IsBlank(s[i]) && IsBlank(s[i - 1])
  }

  ghost predicate ThirdNewline(s: string, i: nat)
    requires i < |s|
  {
    i > 1 && s[i] == '\n' && s[i - 1] == '\n' && s[i - 2] == '\n'
  }

  /** The text with its tabs read as spaces. */
  function Untabbed(s: string): (t: string)
    ensures |t| == |s| && forall i :: 0 <= i < |s| ==> t[i] == if s[i] == '\t' then ' ' else s[i]
  {
    seq(|s|, i requires 0 <= i < |s| => if s[i] == '\t' then ' ' else s[i])
  }

  /** Whether a character stays depends on what stands before it. */
  lemma SameBefore(s: string, i: nat)
    requires i + 1 < |s|
    ensures SecondBlank(s[..|s| - 1], i) <==> SecondBlank(s, i)
    ensures ThirdNewline(s[..|s| - 1], i) <==> ThirdNewline(s, i)
  {
  }

  lemma LastBlank(s: string)
    requires s != ""
    ensures var init, c := s[..|s| - 1], s[|s| - 1];
      var x := if c == '\t' then ' ' else c;
      && Untabbed(s) == Untabbed(init) + [x]
      && CollapseBlanks(s) == if SecondBlank(s, |s| - 1) then CollapseBlanks(init) else CollapseBlanks(init) + [x]
  {
  }

  /** What stays is everything but the blanks behind a blank. */
  lemma {:induction false} BlanksThatStay(s: string) returns (places: seq<nat>)
    ensures PickedAt(Untabbed(s), places, CollapseBlanks(s))
    ensures forall i: nat :: i < |s| ==> (i in places <==> !SecondBlank(s, i))
  {
    places := [];
    if s != "" {
      var init, c := s[..|s| - 1], s[|s| - 1];
      var before := BlanksThatStay(init);
      LastBlank(s);
      places := PickOneMore(Untabbed(init), before, CollapseBlanks(init), if c == '\t' then ' ' else c,
        !SecondBlank(s, |init|));
      forall i: nat | i < |s|
        ensures i in places <==> !SecondBlank(s, i)
      {
        if i < |init| {
          SameBefore(s, i);
          assert i in before <==> !SecondBlank(init, i);
        }
      }
    }
  }

  lemma LastNewline(s: string)
    requires s != ""
    ensures var init, c := s[..|s| - 1], s[|s| - 1];
      CollapseNewlines(s) == if ThirdNewline(s, |s| - 1) then CollapseNewlines(init) else CollapseNewlines(init) + [c]
  {
  }

  /** And of that everything but the newlines behind two newlines. */
  lemma {:induction false} NewlinesThatStay(s: string) returns (places: seq<nat>)
    ensures PickedAt(s, places, CollapseNewlines(s))
    ensures forall i: nat :: i < |s| ==> (i in places <==> !ThirdNewline(s, i))
  {
    places := [];
    if s != "" {
      var init, c := s[..|s| - 1], s[|s| - 1];
      var before := NewlinesThatStay(init);
      LastNewline(s);
      places := PickOneMore(init, before, CollapseNewlines(init), c, !ThirdNewline(s, |init|));
      assert s == init + [c];
      forall i: nat | i < |s|
        ensures i in places <==> !ThirdNewline(s, i)
      {
        if i < |init| {
          SameBefore(s, i);
          assert i in before <==> !ThirdNewline(init, i);
        }
      }
    }
  }

  /* ------------------------------- looking like code ------------------------------- */

  const CODE_CHARS := "{}();=<>"
  const CODE_WORDS: seq<string> := ["function", "const", "let", "var", "import", "export", "class", "interface",
    "type", "return", "if", "else", "for", "while"]

  predicate IsWordChar(c: char) {
    'a' <= c <= 'z' || 'A' <= c <= 'Z' || '0' <= c <= '9' || c == '_'
  }

  /** A code word stands at [i, j), with no word character on either side. */
  predicate WordAt(s: string, i: nat, j: nat) {
    && i <= j <= |s| && s[i..j] in CODE_WORDS
    && (i == 0 || !IsWordChar(s[i - 1])) && (j == |s| || !IsWordChar(s[j]))
  }

  predicate LooksLikeCode(s: string) {
    (exists c :: c in s && c in CODE_CHARS) || exists i, j :: 0 <= i <= |s| && i <= j <= |s| && WordAt(s, i, j)
  }

  lemma WordCharInside(s: string, i: nat, j: nat, k: nat)
    requires WordAt(s, i, j) && i <= k < j
    ensures IsWordChar(s[k])
  {
    assert s[i..j][k - i] == s[k];
  }

  lemma WordInJoin(x: string, y: string, i: nat, j: nat)
    requires WordAt(x + " " + y, i, j)
    ensures WordAt(x, i, j) || (i > |x| && WordAt(y, i - |x| - 1, j - |x| - 1))
  {
    var s := x + " " + y;
    assert !(i <= |x| < j) by {
      if i <= |x| < j {
        WordCharInside(s, i, j, |x|);
      }
    }
    SliceOfJoin(x, y, i, j);
    if j <= |x| {
      assert i > 0 ==> s[i - 1] == x[i - 1];
      assert j < |x| ==> s[j] == x[j];
    } else {
      assert i > |x| + 1 ==> s[i - 1] == y[i - |x| - 2];
      assert j < |s| ==> s[j] == y[j - |x| - 1];
    }
  }

  lemma SliceOfJoin(x: string, y: string, i: nat, j: nat)
    ensures i <= j <= |x| ==> (x + " " + y)[i..j] == x[i..j]
    ensures |x| < i <= j <= |x| + 1 + |y| ==> (x + " " + y)[i..j] == y[i - |x| - 1..j - |x| - 1]
  {
  }

  lemma WordFromParts(x: string, y: string, i: nat, j: nat)
    ensures WordAt(x, i, j) ==> WordAt(x + " " + y, i, j)
    ensures WordAt(y, i, j) ==> WordAt(x + " " + y, i + |x| + 1, j + |x| + 1)
  {
    SliceOfJoin(x, y, i, j);
    SliceOfJoin(x, y, i + |x| + 1, j + |x| + 1);
  }

  lemma CodeOfJoin(x: string, y: string)
    ensures LooksLikeCode(x + " " + y) <==> LooksLikeCode(x) || LooksLikeCode(y)
  {
    var s := x + " " + y;
    if i: nat, j: nat :| WordAt(s, i, j) {
      WordInJoin(x, y, i, j);
    }
    if i: nat, j: nat :| WordAt(x, i, j) {
      WordFromParts(x, y, i, j);
    }
    if i: nat, j: nat :| WordAt(y, i, j) {
      WordFromParts(x, y, i, j);
    }
    assert forall c :: c in s <==> c in x || c == ' ' || c in y;
  }

  /** A text is code if one of the two texts it was joined from is. */
  lemma CodeOfJoinedTexts(a: string, b: string)
    requires StartsSolid(b)
    ensures LooksLikeCode(Collapse(a + " " + b)) <==> LooksLikeCode(Collapse(a)) || LooksLikeCode(Collapse(b))
  {
    CollapseOfJoin(a, b);
    var x, y := Collapse(a), Collapse(b);
    if EndsInBlank(a) {
      CollapsedEndsInBlank(a);
      var blanks := CollapseBlanks(a);
      assert x == CollapseNewlines(blanks[..|blanks| - 1]) + " ";
      var z := CollapseNewlines(blanks[..|blanks| - 1]);
      assert x + "" + y == z + " " + y && x == z + " " + "";
      CodeOfJoin(z, y);
      CodeOfJoin(z, "");
      assert !LooksLikeCode("");
    } else {
      CodeOfJoin(x, y);
    }
  }

  /** Nothing to collapse: no tabs, newlines or blanks in a row. */
  ghost predicate Tight(s: string) {
    forall i :: 0 <= i < |s| ==> s[i] != '\t' && s[i] != '\n' && (i > 0 && s[i] == ' ' ==> s[i - 1] != ' ')
  }

  lemma {:induction false} TightIsCollapsed(s: string)
    requires Tight(s)
    ensures CollapseBlanks(s) == s && CollapseNewlines(s) == s
  {
    if s != "" {
      TightIsCollapsed(s[..|s| - 1]);
    }
  }

  /* ------------------------------- the estimate ------------------------------- */

  function CeilDiv(n: nat, d: nat): nat
    requires d > 0
  {
    (n + d - 1) / d
  }

  /** 3.2 characters a token for code, 4 otherwise. */
  function TokensOf(length: nat, code: bool): nat {
    if code then CeilDiv(5 * length, 16) else CeilDiv(length, 4)
  }

  function EstimateTokens(s: string): nat {
    if s == "" then 0 else TokensOf(|Collapse(s)|, LooksLikeCode(Collapse(s)))
  }

  /** The most characters that a number of tokens can stand for. */
  function Capacity(tokens: int, code: bool): int {
    if code then 16 * tokens / 5 else 4 * tokens
  }

  lemma MoreCharactersMoreTokens(a: nat, b: nat, code: bool)
    requires a <= b
    ensures TokensOf(a, code) <= TokensOf(b, code)
  {
  }

  lemma FitsIff(length: nat, code: bool, tokens: int)
    ensures TokensOf(length, code) <= tokens <==> length <= Capacity(tokens, code)
  {
  }

  /** The estimate is the least number of tokens of 3.2 characters (code) or 4 that the collapsed
      text fits into. */
  lemma EstimateIsLeast(s: string, tokens: int)
    ensures EstimateTokens(s) <= tokens <==>
      if LooksLikeCode(Collapse(s)) then 10 * |Collapse(s)| <= 32 * tokens else |Collapse(s)| <= 4 * tokens
  {
  }
}
