/** Types shared by all modules. */
module Basics {
  newtype byte = x: int | 0 <= x < 256

  const NUL: byte := 0
  const TAB: byte := 9
  const NEWLINE: byte := 10
  const RETURN: byte := 13
  const SPACE: byte := 32

  /** The text terminals, ALT+F1 to ALT+F3. */
  const TERMINALS: nat := 3

  /** The values of a `uint32_t`. */
  const TWO_32 := 0x1_0000_0000

  datatype Option<+T> = None | Some(value: T)

  function Min(a: int, b: int): int { if a < b then a else b }

  /** The length of the first line of a text, its newline not counted. */
  function LineLength(text: seq<byte>): (r: nat)
    ensures r <= |text| && NEWLINE !in text[..r] && (r < |text| ==> text[r] == NEWLINE)
  {
    if text == [] || text[0] == NEWLINE then 0 else 1 + LineLength(text[1..])
  }

  lemma LineLengthIs(text: seq<byte>, k: nat)
    requires k <= |text| && NEWLINE !in text[..k] && (k < |text| ==> text[k] == NEWLINE)
    ensures LineLength(text) == k
  {
    if k > 0 {
      assert text[..k][0] == text[0] && text[..k][1..] == text[1..][..k - 1];
      LineLengthIs(text[1..], k - 1);
    }
  }

  lemma Rejoined<T>(s: seq<T>, a: nat, b: nat, c: nat)
    requires a <= b <= c <= |s|
    ensures s[a..b] + s[b..c] == s[a..c]
  {
  }

  lemma Regrouped<T>(a: seq<T>, b: seq<T>, c: seq<T>)
    ensures a + (b + c) == a + b + c
  {
  }

  lemma PrefixOfPrefix<T>(s: seq<T>, a: nat, b: nat)
    requires b <= a <= |s|
    ensures s[..a][..b] == s[..b]
  {
  }

  /** A set of numbers below `n` has at most `n` elements, and exactly `n` only if none is missing. */
  lemma FullSet(s: set<nat>, n: nat)
    requires forall q | q in s :: q < n
    ensures |s| <= n
    ensures |s| == n <==> forall q | 0 <= q < n :: q in s
  {
    if n > 0 {
      FullSet(s - {n - 1}, n - 1);
      if forall q | 0 <= q < n :: q in s {
        assert forall q | 0 <= q < n - 1 :: q in s && q in s - {n - 1};
      } else if n - 1 in s {
        var q :| 0 <= q < n && q !in s;
        assert q !in s - {n - 1};
      }
    }
  }

  function Elements(order: seq<nat>): set<nat> { set i | i in order }

  lemma DistinctSize(order: seq<nat>)
    requires forall i, j | 0 <= i < j < |order| :: order[i] != order[j]
    ensures |Elements(order)| == |order|
  {
    if order != [] {
      DistinctSize(order[1..]);
      assert order[0] !in Elements(order[1..]);
      assert Elements(order) == Elements(order[1..]) + {order[0]};
    }
  }
}
