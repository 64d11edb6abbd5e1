// Bytes, the effect of memcpy, and a few facts shared by all modules.
module Bytes {

  newtype byte = x: int | 0 <= x < 256

  function Min(a: nat, b: nat): nat {
    if a < b then a else b
  }

  lemma SeqAssoc<T>(a: seq<T>, b: seq<T>, c: seq<T>)
    ensures a + (b + c) == (a + b) + c
  {
  }

  // after is before with n elements of src, from index a on, written over it at index i.
  ghost predicate Copied<T>(before: seq<T>, after: seq<T>, i: nat, src: seq<T>, a: nat, n: nat) {
    && |after| == |before| && i + n <= |before| && a + n <= |src|
    && forall k :: 0 <= k < |before| ==>
         after[k] == if i <= k < i + n then src[a + k - i] else before[k]
  }

  // memcpy into an array.
  method Memcpy<T>(dst: array<T>, i: nat, src: seq<T>, a: nat, n: nat)
    requires i + n <= dst.Length && a + n <= |src|
    modifies dst
    ensures Copied(old(dst[..]), dst[..], i, src, a, n)
  {
    forall k | 0 <= k < n {
      dst[i + k] := src[a + k];
    }
  }

  // Nothing changed but n elements from index i on.
  ghost predicate Around<T>(before: seq<T>, after: seq<T>, i: nat, n: nat) {
    && |after| == |before|
    && forall k :: 0 <= k < |before| && !(i <= k < i + n) ==> after[k] == before[k]
  }

  // n elements of s from index i on are those of t from index a on.
  ghost predicate Same<T>(s: seq<T>, i: nat, t: seq<T>, a: nat, n: nat) {
    && i + n <= |s| && a + n <= |t|
    && forall k :: i <= k < i + n ==> s[k] == t[a + k - i]
  }

  lemma CopiedSame<T>(before: seq<T>, after: seq<T>, i: nat, s: seq<T>, j: nat, t: seq<T>, a: nat, n: nat)
    requires Copied(before, after, i, s, j, n) && Same(s, j, t, a, n)
    ensures Copied(before, after, i, t, a, n)
  {
  }

  lemma CopiedSlice<T>(before: seq<T>, after: seq<T>, i: nat, src: seq<T>, a: nat, n: nat)
    requires Copied(before, after, i, src, a, n)
    ensures after[i..i + n] == src[a..a + n]
  {
  }

  // Pieces put one behind the other.
  function Flat(s: seq<seq<byte>>): seq<byte> {
    if s == [] then [] else Flat(s[..|s| - 1]) + s[|s| - 1]
  }

  lemma FlatMore(s: seq<seq<byte>>, i: nat)
    requires i < |s|
    ensures Flat(s[..i + 1]) == Flat(s[..i]) + s[i]
  {
    assert s[..i + 1][..i] == s[..i];
  }
}
