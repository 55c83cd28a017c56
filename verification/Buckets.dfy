/** The bucket list of generic/sorter/govern.c and what every step of the governor keeps. */
module Buckets {
  import opened Ordering
  import opened RadixSort

  /** A bucket: its records, its size in bytes, the number of sorted runs it consists of (0 if
      not sorted), the hash bits that may still differ, and whether a file exists for it. */
  datatype Bucket<T> = Bucket(data: seq<T>, size: nat, runs: nat, hashBits: nat, hasFile: bool)

  ghost predicate AtMost<T>(a: seq<T>, b: seq<T>, key: T -> int) {
    forall x, y :: x in a && y in b ==> key(x) <= key(y)
  }

  /** Keys in earlier parts never exceed keys in later ones. */
  ghost predicate Rising<T>(ds: seq<seq<T>>, key: T -> int) {
    forall i, j :: 0 <= i < j < |ds| ==> AtMost(ds[i], ds[j], key)
  }

  ghost predicate Within<T>(a: seq<T>, b: seq<T>) {
    forall x :: x in a ==> x in b
  }

  lemma AtMostWithin<T>(a: seq<T>, b: seq<T>, a': seq<T>, b': seq<T>, key: T -> int)
    requires AtMost(a, b, key) && Within(a', a) && Within(b', b)
    ensures AtMost(a', b', key)
  {
  }

  /** Replacing one part by rising parts with the same records keeps the list rising. */
  lemma RisingReplace<T>(a: seq<seq<T>>, d: seq<T>, b: seq<seq<T>>, parts: seq<seq<T>>, key: T -> int)
    requires Rising(a + [d] + b, key) && Rising(parts, key) && All(parts) == multiset(d)
    ensures Rising(a + parts + b, key)
  {
    hide AtMost, Within, All;
    var l, m := a + [d] + b, a + parts + b;
    var na, np := |a|, |parts|;
    forall i, j | 0 <= i < j < |m| ensures AtMost(m[i], m[j], key) {
      var i' := if i < na then i else if i < na + np then na else i - np + 1;
      var j' := if j < na then j else if j < na + np then na else j - np + 1;
      if i' == j' {
        assert m[i] == parts[i - na] && m[j] == parts[j - na];
      } else {
        PartWithin(a, d, b, parts, i);
        PartWithin(a, d, b, parts, j);
        AtMostWithin(l[i'], l[j'], m[i], m[j], key);
      }
    }
  }

  lemma PartWithin<T>(a: seq<seq<T>>, d: seq<T>, b: seq<seq<T>>, parts: seq<seq<T>>, i: nat)
    requires i < |a| + |parts| + |b| && All(parts) == multiset(d)
    ensures var i' := if i < |a| then i else if i < |a| + |parts| then |a| else i - |parts| + 1;
      Within((a + parts + b)[i], (a + [d] + b)[i'])
  {
    if |a| <= i < |a| + |parts| {
      forall x | x in parts[i - |a|] ensures x in d {
        AllMember(parts, i - |a|, x);
        assert x in multiset(d);
      }
    }
  }

  lemma AllReplace<T>(a: seq<seq<T>>, d: seq<T>, b: seq<seq<T>>, parts: seq<seq<T>>)
    requires All(parts) == multiset(d)
    ensures All(a + parts + b) == All(a + [d] + b)
  {
    hide All;
    AllConcat(a + parts, b);
    AllConcat(a, parts);
    AllConcat(a + [d], b);
    AllConcat(a, [d]);
    AllOne(d);
  }

  function Datas<T>(bs: seq<Bucket<T>>): (ds: seq<seq<T>>)
    ensures |ds| == |bs| && forall i :: 0 <= i < |bs| ==> ds[i] == bs[i].data
  {
    seq(|bs|, i requires 0 <= i < |bs| => bs[i].data)
  }

  lemma DatasConcat<T>(a: seq<Bucket<T>>, b: seq<Bucket<T>>)
    ensures Datas(a + b) == Datas(a) + Datas(b)
  {
  }

  /** A bucket waiting in the list: sorted, or split by hash down to `hashBits`. */
  ghost predicate Waiting<T>(b: Bucket<T>, ctx: Context<T>) {
    && b.runs <= 1
    && (b.runs == 1 ==> Sorted(b.data, ctx.key))
    && (b.runs == 0 ==> Agree(b.data, ctx, b.hashBits))
    && (b.data != [] ==> b.size > 0)
  }

  /** The final bucket holds the old output followed by sorted records. */
  ghost predicate Final<T>(b: Bucket<T>, prefix: seq<T>, ctx: Context<T>) {
    && b.runs == 1 && prefix <= b.data && Sorted(b.data[|prefix|..], ctx.key)
    && (!b.hasFile ==> b.data == [])
  }

  /** The final bucket and the remaining ones together are a permutation of the input, and
      keys in earlier buckets never exceed keys in later ones. */
  ghost predicate Governed<T>(bs: seq<Bucket<T>>, prefix: seq<T>, input: multiset<T>, ctx: Context<T>) {
    && |bs| >= 1 && Final(bs[0], prefix, ctx)
    && (forall i :: 1 <= i < |bs| ==> Waiting(bs[i], ctx))
    && Rising(Parts(bs, prefix), ctx.key) && All(Parts(bs, prefix)) == input
  }

  /** The sorted part of the final bucket, then the waiting buckets. */
  ghost function Parts<T>(bs: seq<Bucket<T>>, prefix: seq<T>): seq<seq<T>>
    requires |bs| >= 1 && |prefix| <= |bs[0].data|
  {
    [bs[0].data[|prefix|..]] + Datas(bs[1..])
  }

  lemma PartsSplit<T>(bs: seq<Bucket<T>>, parts: seq<Bucket<T>>, prefix: seq<T>)
    requires |bs| >= 2 && |prefix| <= |bs[0].data|
    ensures var done := [bs[0].data[|prefix|..]];
      && Parts(bs, prefix) == done + [bs[1].data] + Datas(bs[2..])
      && Parts([bs[0]] + parts + bs[2..], prefix) == done + Datas(parts) + Datas(bs[2..])
  {
    var done, d, rest := [bs[0].data[|prefix|..]], [bs[1].data], Datas(bs[2..]);
    var bs' := [bs[0]] + parts + bs[2..];
    assert Datas(bs[1..]) == d + rest;
    assert bs'[0] == bs[0] && bs'[1..] == parts + bs[2..];
    DatasConcat(parts, bs[2..]);
    assert done + (d + rest) == done + d + rest;
    assert done + (Datas(parts) + rest) == done + Datas(parts) + rest;
  }

  /** Replacing the first waiting bucket by buckets with the same records. */
  lemma ReplaceGoverned<T>(bs: seq<Bucket<T>>, parts: seq<Bucket<T>>, prefix: seq<T>, input: multiset<T>,
                           ctx: Context<T>)
    requires |bs| >= 2 && Governed(bs, prefix, input, ctx)
    requires (forall i :: 0 <= i < |parts| ==> Waiting(parts[i], ctx))
    requires Rising(Datas(parts), ctx.key) && All(Datas(parts)) == multiset(bs[1].data)
    ensures Governed([bs[0]] + parts + bs[2..], prefix, input, ctx)
  {
    hide Waiting, Rising, All, Sorted, Datas, Parts;
    var done := [bs[0].data[|prefix|..]];
    PartsSplit(bs, parts, prefix);
    RisingReplace(done, bs[1].data, Datas(bs[2..]), Datas(parts), ctx.key);
    AllReplace(done, bs[1].data, Datas(bs[2..]), Datas(parts));
  }

  /** Appending the sorted records of the first waiting bucket to the final one. */
  lemma AppendGoverned<T>(bs: seq<Bucket<T>>, chunk: seq<T>, last: Bucket<T>, prefix: seq<T>,
                          input: multiset<T>, ctx: Context<T>)
    requires |bs| >= 2 && Governed(bs, prefix, input, ctx)
    requires Sorted(chunk, ctx.key) && multiset(chunk) == multiset(bs[1].data)
    requires last.runs == 1 && last.data == bs[0].data + chunk && (!last.hasFile ==> last.data == [])
    ensures Governed([last] + bs[2..], prefix, input, ctx)
  {
    hide Waiting, Rising, All, Sorted, Datas, Parts;
    var s, d, b := bs[0].data[|prefix|..], bs[1].data, Datas(bs[2..]);
    PartsSplit(bs, [], prefix);
    assert last.data[|prefix|..] == s + chunk;
    PartsLast([last] + bs[2..], prefix);
    assert ([last] + bs[2..])[1..] == bs[2..];
    AppendRising(s, d, b, chunk, ctx.key);
  }

  lemma PartsLast<T>(bs: seq<Bucket<T>>, prefix: seq<T>)
    requires |bs| >= 1 && |prefix| <= |bs[0].data|
    ensures Parts(bs, prefix) == [bs[0].data[|prefix|..]] + Datas(bs[1..])
  {
  }

  lemma AppendRising<T>(s: seq<T>, d: seq<T>, b: seq<seq<T>>, chunk: seq<T>, key: T -> int)
    requires Rising([s] + [d] + b, key) && Sorted(s, key) && Sorted(chunk, key) && multiset(chunk) == multiset(d)
    ensures Rising([s + chunk] + b, key) && All([s + chunk] + b) == All([s] + [d] + b) && Sorted(s + chunk, key)
  {
    hide All, AtMost;
    var l, m := [s] + [d] + b, [s + chunk] + b;
    assert AtMost(l[0], l[1], key);
    SortedAppend(s, d, chunk, key);
    forall i, j | 0 <= i < j < |m| ensures AtMost(m[i], m[j], key) {
      assert m[j] == l[j + 1] && AtMost(l[0], l[j + 1], key) && AtMost(l[1], l[j + 1], key);
      if i > 0 {
        assert m[i] == l[i + 1] && AtMost(l[i + 1], l[j + 1], key);
      } else {
        AtMostBoth(s, d, chunk, m[j], key);
      }
    }
    AllConcat([s + chunk], b);
    AllConcat([s] + [d], b);
    AllConcat([s], [d]);
    AllOne(s);
    AllOne(d);
    AllOne(s + chunk);
  }

  lemma AtMostBoth<T>(s: seq<T>, d: seq<T>, chunk: seq<T>, y: seq<T>, key: T -> int)
    requires AtMost(s, y, key) && AtMost(d, y, key) && multiset(chunk) == multiset(d)
    ensures AtMost(s + chunk, y, key)
  {
    forall x | x in chunk ensures x in d {
      assert x in multiset(chunk);
    }
  }

  lemma SortedAppend<T>(s: seq<T>, d: seq<T>, chunk: seq<T>, key: T -> int)
    requires AtMost(s, d, key) && Sorted(s, key) && Sorted(chunk, key) && multiset(chunk) == multiset(d)
    ensures Sorted(s + chunk, key)
  {
    var c := s + chunk;
    forall i, j | 0 <= i < j < |c| ensures key(c[i]) <= key(c[j]) {
      if i < |s| <= j {
        assert c[i] in s && c[j] in multiset(chunk);
      }
    }
  }
}
