/** The string keys of the message page cache (packages/gateway/src/persistence.ts). */
module CacheKeys {
  import opened Basics

  /** The options of a page request; an omitted cursor is None. */
  datatype Query = Query(sessionId: string, after: Option<int>, before: Option<int>, limit: nat)

  function OrZero(x: Option<int>): int { if x.Some? then x.value else 0 }

  /** `session:after:before:limit`, with 0 for an omitted cursor. */
  function Key(q: Query): string {
    q.sessionId + ":" + Decimal(OrZero(q.after)) + ":" + Decimal(OrZero(q.before)) + ":" + Decimal(q.limit)
  }

  predicate StartsWith(s: string, prefix: string) { prefix <= s }

  lemma KeyStartsWithSession(q: Query)
    ensures StartsWith(Key(q), q.sessionId + ":")
  {
  }

  lemma {:induction false} NaturalHasNoMarks(n: nat)
    ensures ':' !in Natural(n) && '-' !in Natural(n)
  {
    if n >= 10 {
      NaturalHasNoMarks(n / 10);
    }
  }

  lemma DecimalHasNoColon(n: int)
    ensures ':' !in Decimal(n)
  {
    NaturalHasNoMarks(if n < 0 then -n else n);
  }

  /* ------------------------------- reading keys back ------------------------------- */

  function DigitValue(c: char): int { c as int - '0' as int }

  function ParseNatural(s: string): int {
    if s == "" then 0 else 10 * ParseNatural(s[..|s| - 1]) + DigitValue(s[|s| - 1])
  }

  function ParseDecimal(s: string): int {
    if s != "" && s[0] == '-' then -ParseNatural(s[1..]) else ParseNatural(s)
  }

  lemma {:induction false} ParseNaturalInverts(n: nat)
    ensures ParseNatural(Natural(n)) == n
  {
    var s := Natural(n);
    if n >= 10 {
      ParseNaturalInverts(n / 10);
      assert s[..|s| - 1] == Natural(n / 10);
    } else {
      assert s[..|s| - 1] == "";
    }
  }

  lemma ParseDecimalInverts(n: int)
    ensures ParseDecimal(Decimal(n)) == n
  {
    var m := if n < 0 then -n else n;
    ParseNaturalInverts(m);
    NaturalHasNoMarks(m);
    if n < 0 {
      assert Decimal(n)[1..] == Natural(m);
    } else {
      assert Natural(m)[0] in Natural(m);
    }
  }

  /** What stands before and after the last colon. */
  function CutAtLastColon(s: string): (string, string) {
    if s == "" then ("", "")
    else
      var init, c := s[..|s| - 1], s[|s| - 1];
      if c == ':' then (init, "") else (CutAtLastColon(init).0, CutAtLastColon(init).1 + [c])
  }

  lemma {:induction false} CutInverts(x: string, d: string)
    requires ':' !in d
    ensures CutAtLastColon(x + ":" + d) == (x, d)
  {
    var s := x + ":" + d;
    if d == "" {
      assert s[..|s| - 1] == x;
    } else {
      var d' := d[..|d| - 1];
      assert s[..|s| - 1] == x + ":" + d' && d == d' + [d[|d| - 1]];
      CutInverts(x, d');
    }
  }

  /** The request that a key stands for, with 0 for its omitted cursors. */
  function ParseKey(key: string): (string, int, int, int) {
    var (c, limit) := CutAtLastColon(key);
    var (b, before) := CutAtLastColon(c);
    var (sessionId, after) := CutAtLastColon(b);
    (sessionId, ParseDecimal(after), ParseDecimal(before), ParseDecimal(limit))
  }

  lemma ParseKeyInverts(q: Query)
    ensures ParseKey(Key(q)) == (q.sessionId, OrZero(q.after), OrZero(q.before), q.limit)
  {
    var after, before, limit := Decimal(OrZero(q.after)), Decimal(OrZero(q.before)), Decimal(q.limit);
    DecimalHasNoColon(OrZero(q.after));
    DecimalHasNoColon(OrZero(q.before));
    DecimalHasNoColon(q.limit);
    CutInverts(q.sessionId, after);
    CutInverts(q.sessionId + ":" + after, before);
    CutInverts(q.sessionId + ":" + after + ":" + before, limit);
    ParseDecimalInverts(OrZero(q.after));
    ParseDecimalInverts(OrZero(q.before));
    ParseDecimalInverts(q.limit);
  }

  /** Two requests share a key exactly when they agree up to omitted cursors: session ids with
      colons in them cause no collision. */
  lemma SameKeyIff(p: Query, q: Query)
    ensures Key(p) == Key(q) <==>
      p.sessionId == q.sessionId && OrZero(p.after) == OrZero(q.after)
      && OrZero(p.before) == OrZero(q.before) && p.limit == q.limit
  {
    ParseKeyInverts(p);
    ParseKeyInverts(q);
  }
}
