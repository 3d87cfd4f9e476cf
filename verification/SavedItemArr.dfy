/** Sorting stored items in place through Less and Swap. The library's choice of algorithm does
    not matter to its caller; this is the insertion sort it uses on short ranges. */
module SavedItemArr {
  import opened Codec

  predicate Less(arr: array<SavedItem>, i: nat, j: nat)
    requires i < arr.Length && j < arr.Length
    reads arr, arr[i], arr[j]
  {
    arr[i].time < arr[j].time
  }

  method Swap(arr: array<SavedItem>, i: nat, j: nat)
    requires i < arr.Length && j < arr.Length
    modifies arr
    ensures arr[..] == old(arr[..][i := arr[j]][j := arr[i]])
    ensures multiset(arr[..]) == multiset(old(arr[..]))
  {
    var temp := arr[i];
    arr[i] := arr[j];
    arr[j] := temp;
  }

  ghost predicate NewestFirst(s: seq<SavedItem>)
    reads s
  {
    forall i, j :: 0 <= i < j < |s| ==> s[i].time >= s[j].time
  }

  /** Of the first n items, all but the one at k, which is still on its way to the front, are
      in order. */
  ghost predicate OrderedBut(s: seq<SavedItem>, n: nat, k: nat)
    requires n <= |s|
    reads s
  {
    forall i, j :: 0 <= i < j < n && j != k ==> s[i].time >= s[j].time
  }

  lemma SwapForward(s: seq<SavedItem>, n: nat, k: nat)
    requires 0 < k < n <= |s| && OrderedBut(s, n, k) && s[k - 1].time < s[k].time
    ensures OrderedBut(s[k - 1 := s[k]][k := s[k - 1]], n, k - 1)
  {
  }

  /** One turn of the outer loop: the item at n moves down to its place. */
  method Insert(arr: array<SavedItem>, n: nat)
    requires n < arr.Length && OrderedBut(arr[..], n, n)
    modifies arr
    ensures OrderedBut(arr[..], n + 1, n + 1)
    ensures multiset(arr[..]) == multiset(old(arr[..]))
  {
    var k := n;
    while k > 0 && Less(arr, k - 1, k)
      invariant 0 <= k <= n
      invariant OrderedBut(arr[..], n + 1, k)
      invariant multiset(arr[..]) == multiset(old(arr[..]))
    {
      SwapForward(arr[..], n + 1, k);
      Swap(arr, k - 1, k);
      k := k - 1;
    }
    InPlace(arr[..], n + 1, k);
  }

  lemma InPlace(s: seq<SavedItem>, n: nat, k: nat)
    requires k < n <= |s| && OrderedBut(s, n, k)
    requires k > 0 ==> s[k - 1].time >= s[k].time
    ensures OrderedBut(s, n, n)
  {
    assert forall i :: 0 <= i < k - 1 ==> s[i].time >= s[k - 1].time;
  }

  /** sort.Sort(sort.Reverse(arr)). */
  method SortNewestFirst(arr: array<SavedItem>)
    modifies arr
    ensures NewestFirst(arr[..])
    ensures multiset(arr[..]) == multiset(old(arr[..]))
  {
    for n := 0 to arr.Length
      invariant OrderedBut(arr[..], n, n)
      invariant multiset(arr[..]) == multiset(old(arr[..]))
    {
      Insert(arr, n);
    }
  }

  lemma {:induction false} CountOfTwo<T>(s: seq<T>, i: nat, j: nat)
    requires i < j < |s| && s[i] == s[j]
    ensures multiset(s)[s[i]] >= 2
  {
    assert s == s[..i] + [s[i]] + s[i + 1..j] + [s[j]] + s[j + 1..];
  }

  lemma {:induction false} CountOfOne<T>(s: seq<T>, x: T)
    requires forall i, j :: 0 <= i < j < |s| ==> s[i] != s[j]
    ensures multiset(s)[x] <= 1
    decreases |s|
  {
    if s == [] {
    } else {
      var n := |s| - 1;
      CountOfOne(s[..n], x);
      assert s == s[..n] + [s[n]];
      if x == s[n] {
        assert x !in s[..n];
      }
    }
  }

  /** Rearranging distinct items leaves them distinct, and the same items. */
  lemma RearrangedDistinct<T>(s: seq<T>, t: seq<T>)
    requires multiset(s) == multiset(t)
    requires forall i, j :: 0 <= i < j < |s| ==> s[i] != s[j]
    ensures forall i, j :: 0 <= i < j < |t| ==> t[i] != t[j]
    ensures forall x :: x in t <==> x in s
    ensures |t| == |s|
  {
    forall i, j | 0 <= i < j < |t| ensures t[i] != t[j] {
      CountOfOne(s, t[i]);
      if t[i] == t[j] {
        CountOfTwo(t, i, j);
        assert false;
      }
    }
    forall x ensures x in t <==> x in s {
      assert x in t <==> x in multiset(t);
    }
    assert |t| == |multiset(t)| && |s| == |multiset(s)|;
  }
}
