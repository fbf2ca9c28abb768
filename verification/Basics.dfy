/** Small types and list functions that several models share. */
module Basics {
  datatype Option<T> = None | Some(value: T)

  /** JavaScript truth of an optional string: present and not empty. */
  predicate Given(s: Option<string>) { s.Some? && s.value != "" }

  function Positive(x: int): nat { if x > 0 then x else 0 }

  function Pow2(n: nat): nat { if n == 0 then 1 else 2 * Pow2(n - 1) }

  /** The first position whose key is `id`, or the length. */
  function Position<T>(s: seq<T>, key: T -> string, id: string): (i: nat)
    ensures i <= |s| && (i < |s| ==> key(s[i]) == id)
    ensures forall j :: 0 <= j < i ==> key(s[j]) != id
  {
    if s == [] || key(s[0]) == id then 0 else 1 + Position(s[1..], key, id)
  }

  function Digit(n: nat): char
    requires n < 10
  {
    "0123456789"[n]
  }

  function Natural(n: nat): (s: string)
    ensures s != []
  {
    if n < 10 then [Digit(n)] else Natural(n / 10) + [Digit(n % 10)]
  }

  /** Decimal rendering of an integer. */
  function Decimal(n: int): string {
    if n < 0 then "-" + Natural(-n) else Natural(n)
  }

  type CodeUnit = n: nat | n < 0x1_0000

  /** A character in UTF-16: one code unit, or a surrogate pair beyond the basic plane. */
  function Encoded(c: char): seq<CodeUnit> {
    var code := c as int;
    if code < 0x1_0000 then [code]
    else [0xD800 + (code - 0x1_0000) / 0x400, 0xDC00 + (code - 0x1_0000) % 0x400]
  }

  /** What JavaScript's strings consist of. */
  function CodeUnits(s: string): seq<CodeUnit> {
    if s == "" then [] else CodeUnits(s[..|s| - 1]) + Encoded(s[|s| - 1])
  }

  /** JavaScript's string length. */
  function Units(s: string): nat { |CodeUnits(s)| }

  /** A list that keeps only its newest entries. */
  function Newest<T>(s: seq<T>, cap: nat): seq<T> {
    if |s| <= cap then s else s[|s| - cap..]
  }

  /** Trimming on every append or only once makes no difference. */
  lemma NewestAppend<T>(s: seq<T>, x: T, cap: nat)
    requires cap > 0
    ensures Newest(Newest(s, cap) + [x], cap) == Newest(s + [x], cap)
  {
  }

  /** `part` consists of the entries of `all` at these places, in order. */
  ghost predicate PickedAt<T>(all: seq<T>, places: seq<nat>, part: seq<T>) {
    && |part| == |places|
    && (forall k :: 0 <= k < |places| ==> places[k] < |all| && part[k] == all[places[k]])
    && (forall j, k :: 0 <= j < k < |places| ==> places[j] < places[k])
  }

  lemma PickOneMore<T>(all: seq<T>, places: seq<nat>, part: seq<T>, x: T, taken: bool) returns (more: seq<nat>)
    requires PickedAt(all, places, part)
    ensures PickedAt(all + [x], more, if taken then part + [x] else part)
    ensures |all| in more <==> taken
    ensures forall i: nat :: i != |all| ==> (i in more <==> i in places)
  {
    if taken {
      more := places + [|all|];
    } else {
      more := places;
    }
  }

  lemma PickOneBefore<T>(x: T, all: seq<T>, places: seq<nat>, part: seq<T>, taken: bool) returns (moved: seq<nat>)
    requires PickedAt(all, places, part)
    ensures PickedAt([x] + all, moved, if taken then [x] + part else part)
    ensures 0 in moved <==> taken
    ensures forall i: nat :: i + 1 in moved <==> i in places
  {
    var up := OneUp(x, all, places, part);
    if taken {
      moved := [0] + up;
      assert forall i :: i in moved <==> i == 0 || i in up;
    } else {
      moved := up;
    }
  }

  lemma OneUp<T>(x: T, all: seq<T>, places: seq<nat>, part: seq<T>) returns (up: seq<nat>)
    requires PickedAt(all, places, part)
    ensures PickedAt([x] + all, up, part) && PickedAt([x] + all, [0] + up, [x] + part)
    ensures 0 !in up && forall i: nat :: i + 1 in up <==> i in places
  {
    up := seq(|places|, k requires 0 <= k < |places| => places[k] + 1);
    PickShifted(x, all, places, part, up);
    forall i: nat
      ensures i + 1 in up <==> i in places
    {
      if i in places {
        var k :| 0 <= k < |places| && places[k] == i;
        assert up[k] == i + 1;
      }
    }
  }

  lemma PickShifted<T>(x: T, all: seq<T>, places: seq<nat>, part: seq<T>, up: seq<nat>)
    requires PickedAt(all, places, part)
    requires |up| == |places| && forall k :: 0 <= k < |places| ==> up[k] == places[k] + 1
    ensures PickedAt([x] + all, up, part) && PickedAt([x] + all, [0] + up, [x] + part)
  {
  }

  lemma Regroup<T>(a: seq<T>, b: seq<T>, c: seq<T>)
    ensures a + b + c == a + (b + c)
  {
  }
}
