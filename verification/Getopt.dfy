/** The in-place exchange of two adjacent blocks of arguments (generic/opt/getopt.c). */
module Getopt {

  /** `s` with the blocks `[bottom, middle)` and `[middle, top)` exchanged. */
  ghost function Exchanged<T>(s: seq<T>, bottom: nat, middle: nat, top: nat): (r: seq<T>)
    requires bottom <= middle <= top <= |s|
    ensures |r| == |s|
  {
    s[..bottom] + s[middle..top] + s[bottom..middle] + s[top..]
  }

  /** `s` with the blocks of `len` elements at `p` and at `q` swapped. */
  ghost predicate BlocksSwapped<T>(s: seq<T>, t: seq<T>, p: nat, q: nat, len: nat) {
    && p + len <= q && q + len <= |s| == |t|
    && t[..p] == s[..p] && t[p..p + len] == s[q..q + len] && t[p + len..q] == s[p + len..q]
    && t[q..q + len] == s[p..p + len] && t[q + len..] == s[q + len..]
  }

  method SwapBlocks<T>(a: array<T>, p: nat, q: nat, len: nat)
    requires p + len <= q && q + len <= a.Length
    modifies a
    ensures BlocksSwapped(old(a[..]), a[..], p, q, len)
  {
    for i := 0 to len
      invariant forall k :: p <= k < p + i ==> a[k] == old(a[q + k - p])
      invariant forall k :: q <= k < q + i ==> a[k] == old(a[p + k - q])
      invariant forall k :: 0 <= k < p || p + i <= k < q || q + i <= k < a.Length ==> a[k] == old(a[k])
    {
      a[p + i], a[q + i] := a[q + i], a[p + i];
    }
  }

  /** The shorter block at the bottom goes to its place at the top. */
  lemma BottomDone<T>(s: seq<T>, t: seq<T>, bottom: nat, middle: nat, top: nat)
    requires bottom < middle < top <= |s| && top - middle > middle - bottom
    requires BlocksSwapped(s, t, bottom, top - (middle - bottom), middle - bottom)
    ensures Exchanged(t, bottom, middle, top - (middle - bottom)) == Exchanged(s, bottom, middle, top)
  {
    var len := middle - bottom;
    assert t[bottom..middle] == s[top - len..top];
    assert t[middle..top - len] == s[middle..top - len];
    assert t[top - len..] == t[top - len..top] + t[top..];
    assert s[middle..top] == s[middle..top - len] + s[top - len..top];
  }

  /** The shorter block at the top goes to its place at the bottom. */
  lemma TopDone<T>(s: seq<T>, t: seq<T>, bottom: nat, middle: nat, top: nat)
    requires bottom < middle < top <= |s| && top - middle <= middle - bottom
    requires BlocksSwapped(s, t, bottom, middle, top - middle)
    ensures Exchanged(t, bottom + (top - middle), middle, top) == Exchanged(s, bottom, middle, top)
  {
    var len := top - middle;
    assert t[..bottom + len] == t[..bottom] + t[bottom..bottom + len];
    assert s[bottom..middle] == s[bottom..bottom + len] + s[bottom + len..middle];
  }

  /** One round: the shorter block goes to its place, and the rest is left to exchange. */
  method SwapShorter<T>(a: array<T>, bottom: nat, middle: nat, top: nat) returns (bottom': nat, top': nat)
    requires bottom < middle < top <= a.Length
    modifies a
    ensures bottom <= bottom' <= middle <= top' <= top && top' - bottom' < top - bottom
    ensures Exchanged(a[..], bottom', middle, top') == Exchanged(old(a[..]), bottom, middle, top)
  {
    hide Exchanged, BlocksSwapped;
    ghost var s := a[..];
    bottom', top' := bottom, top;
    if top - middle > middle - bottom {
      var len := middle - bottom;
      SwapBlocks(a, bottom, top - len, len);
      BottomDone(s, a[..], bottom, middle, top);
      top' := top - len;
    } else {
      var len := top - middle;
      SwapBlocks(a, bottom, middle, len);
      TopDone(s, a[..], bottom, middle, top);
      bottom' := bottom + len;
    }
  }

  /** The indices of struct _getopt_data. */
  class Data {
    var firstNonopt: nat
    var lastNonopt: nat
    var optind: nat
  }

  /** exchange: the options come before the non-options skipped so far, both in order. */
  method Exchange<T>(argv: array<T>, d: Data)
    requires d.firstNonopt <= d.lastNonopt <= d.optind <= argv.Length
    modifies argv, d
    ensures argv[..] == Exchanged(old(argv[..]), old(d.firstNonopt), old(d.lastNonopt), old(d.optind))
    ensures d.optind == old(d.optind) && d.firstNonopt <= d.lastNonopt == d.optind
    ensures argv[d.firstNonopt..d.lastNonopt] == old(argv[d.firstNonopt..d.lastNonopt])
  {
    hide Exchanged, BlocksSwapped;
    var bottom: nat, middle: nat, top: nat := d.firstNonopt, d.lastNonopt, d.optind;
    NonoptionsLast(argv[..], bottom, middle, top);
    ghost var target := Exchanged(argv[..], bottom, middle, top);
    while top > middle && middle > bottom
      invariant bottom <= middle <= top <= argv.Length
      invariant Exchanged(argv[..], bottom, middle, top) == target
      invariant d.firstNonopt == old(d.firstNonopt) && d.lastNonopt == old(d.lastNonopt) && d.optind == old(d.optind)
      decreases top - bottom
    {
      bottom, top := SwapShorter(argv, bottom, middle, top);
    }
    Settled(argv[..], bottom, middle, top);
    d.firstNonopt := d.firstNonopt + (d.optind - d.lastNonopt);
    d.lastNonopt := d.optind;
  }

  lemma NonoptionsLast<T>(s: seq<T>, bottom: nat, middle: nat, top: nat)
    requires bottom <= middle <= top <= |s|
    ensures Exchanged(s, bottom, middle, top)[bottom + (top - middle)..top] == s[bottom..middle]
  {
  }

  lemma Settled<T>(s: seq<T>, bottom: nat, middle: nat, top: nat)
    requires bottom <= middle <= top <= |s| && (top == middle || middle == bottom)
    ensures Exchanged(s, bottom, middle, top) == s
  {
  }
}
