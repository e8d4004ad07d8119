/** The per-session trial plan (`load_images`): two distinct images from each
    group's pool of six, the twelve of them then shuffled. The random choices
    are the caller's: a `Pick` per group for `random.sample(group_imgs, 2)` and
    one draw per position for `random.shuffle`. */
module TrialPlan {
  import opened Conditions

  /** `f"{prefix}{n}.jpg"` for an image number 1..6. */
  function ImageName(prefix: string, n: nat): (name: string)
    requires 1 <= n <= 6
    ensures |name| == |prefix| + 5 && name[..|prefix|] == prefix
    ensures |prefix| == 4 ==> GroupOf(name) == prefix
  {
    prefix + [('0' as int + n) as char] + ".jpg"
  }

  /** Different prefixes of one length, or different numbers, give different names. */
  lemma ImageNameInjective(p: string, n: nat, q: string, m: nat)
    requires 1 <= n <= 6 && 1 <= m <= 6 && |p| == |q|
    requires ImageName(p, n) == ImageName(q, m)
    ensures p == q && n == m
  {
    var x, y := ImageName(p, n), ImageName(q, m);
    assert x[..|p|] == p && y[..|q|] == q;
    assert x[|p|] == ('0' as int + n) as char;
    assert y[|q|] == ('0' as int + m) as char;
  }

  /** `[f"{prefix}{i}.jpg" for i in range(1, 7)]`: a group's six candidate images. */
  function Pool(prefix: string): (pool: seq<string>)
    ensures |pool| == 6
    ensures forall n :: 1 <= n <= 6 ==> pool[n - 1] == ImageName(prefix, n)
  {
    seq(6, i requires 0 <= i < 6 => ImageName(prefix, i + 1))
  }

  /** The result of `random.sample(group_imgs, 2)`, as the two image numbers in
      the order drawn. */
  datatype Pick = Pick(first: nat, second: nat)

  /** What `random.sample` guarantees: two different members of the pool. */
  predicate ValidPick(p: Pick) {
    1 <= p.first <= 6 && 1 <= p.second <= 6 && p.first != p.second
  }

  /** One pick per group, in the order of `GroupPrefixes`. */
  predicate ValidPicks(picks: seq<Pick>) {
    |picks| == |GroupPrefixes| && forall g :: 0 <= g < |picks| ==> ValidPick(picks[g])
  }

  /** What `random.shuffle` consumes on a list of length `n`: for each
      position `i` from `n - 1` down to 1, an index `draws[i]` in `0..i`. */
  predicate ValidDraws(draws: seq<nat>, n: nat) {
    |draws| == n && forall i :: 0 < i < n ==> draws[i] <= i
  }

  /** `all_images` after the first `k` rounds of the loop over the groups. */
  function Selected(picks: seq<Pick>, k: nat): (images: seq<string>)
    requires ValidPicks(picks) && k <= |GroupPrefixes|
    ensures |images| == 2 * k
  {
    if k == 0 then []
    else
      var prefix := GroupPrefixes[k - 1];
      Selected(picks, k - 1) + [ImageName(prefix, picks[k - 1].first), ImageName(prefix, picks[k - 1].second)]
  }

  /** Positions `2g` and `2g + 1` of the selection hold group `g`'s two picks. */
  lemma {:induction false} SelectedAt(picks: seq<Pick>, k: nat, i: nat)
    requires ValidPicks(picks) && k <= |GroupPrefixes| && i < 2 * k
    ensures Selected(picks, k)[i] ==
            ImageName(GroupPrefixes[i / 2], if i % 2 == 0 then picks[i / 2].first else picks[i / 2].second)
  {
    if i < 2 * (k - 1) {
      SelectedAt(picks, k - 1, i);
    }
  }

  /** How many images of the list belong to the group `prefix`: the measure in
      which "two images per group" is stated. */
  function CountGroup(images: seq<string>, prefix: string): (n: nat)
    ensures n <= |images|
  {
    if images == [] then 0
    else (if GroupOf(images[0]) == prefix then 1 else 0) + CountGroup(images[1..], prefix)
  }

  lemma {:induction false} CountGroupAppend(a: seq<string>, b: seq<string>, prefix: string)
    ensures CountGroup(a + b, prefix) == CountGroup(a, prefix) + CountGroup(b, prefix)
  {
    if a == [] {
      assert a + b == b;
    } else {
      assert (a + b)[0] == a[0];
      assert (a + b)[1..] == a[1..] + b;
      CountGroupAppend(a[1..], b, prefix);
    }
  }

  /** Reordering a list does not change how many of its images belong to a group. */
  lemma {:induction false} CountGroupPermutation(a: seq<string>, b: seq<string>, prefix: string)
    requires multiset(a) == multiset(b)
    ensures CountGroup(a, prefix) == CountGroup(b, prefix)
    decreases |a|
  {
    if a == [] {
      assert |b| == |multiset(b)| == 0;
    } else {
      var x := a[0];
      assert a == [x] + a[1..];
      assert x in multiset(b);
      var k :| 0 <= k < |b| && b[k] == x;
      assert b == b[..k] + [x] + b[k + 1..];
      var rest := b[..k] + b[k + 1..];
      assert multiset(b) == multiset(b[..k]) + multiset{x} + multiset(b[k + 1..]);
      assert multiset(a) == multiset{x} + multiset(a[1..]);
      assert multiset(rest) == multiset(b[..k]) + multiset(b[k + 1..]);
      assert multiset(a[1..]) == multiset(a) - multiset{x};
      assert multiset(rest) == multiset(b) - multiset{x};
      CountGroupPermutation(a[1..], rest, prefix);
      CountGroupAppend(b[..k] + [x], b[k + 1..], prefix);
      CountGroupAppend(b[..k], [x], prefix);
      CountGroupAppend(b[..k], b[k + 1..], prefix);
      assert [x][1..] == [];
    }
  }

  /** The selection after `k` rounds holds two images of each of the first `k`
      groups and none of the others. */
  lemma {:induction false} CountSelected(picks: seq<Pick>, k: nat, g: nat)
    requires ValidPicks(picks) && k <= |GroupPrefixes| && g < |GroupPrefixes|
    ensures CountGroup(Selected(picks, k), GroupPrefixes[g]) == if g < k then 2 else 0
  {
    if k > 0 {
      var prefix := GroupPrefixes[k - 1];
      var pair := [ImageName(prefix, picks[k - 1].first), ImageName(prefix, picks[k - 1].second)];
      CountSelected(picks, k - 1, g);
      CountGroupAppend(Selected(picks, k - 1), pair, GroupPrefixes[g]);
      GroupTable();
      assert pair[1..][1..] == [];
    }
  }

  /** No image occurs twice. */
  predicate Distinct(images: seq<string>) {
    forall i, j :: 0 <= i < j < |images| ==> images[i] != images[j]
  }

  lemma {:induction false} DistinctAtMostOnce(s: seq<string>, x: string)
    requires Distinct(s)
    ensures multiset(s)[x] <= 1
  {
    if s != [] {
      assert s == [s[0]] + s[1..];
      DistinctAtMostOnce(s[1..], x);
      assert s[0] !in s[1..];
    }
  }

  lemma RepeatedTwice(s: seq<string>, i: nat, j: nat)
    requires i < j < |s| && s[i] == s[j]
    ensures multiset(s)[s[i]] >= 2
  {
    assert s == s[..j] + s[j..];
    assert s[..j][i] == s[i];
    assert s[j..][0] == s[i];
  }

  /** Reordering a list without repeats gives a list without repeats. */
  lemma DistinctPermutation(a: seq<string>, b: seq<string>)
    requires multiset(a) == multiset(b) && Distinct(a)
    ensures Distinct(b)
  {
    forall i, j | 0 <= i < j < |b| ensures b[i] != b[j] {
      if b[i] == b[j] {
        RepeatedTwice(b, i, j);
        DistinctAtMostOnce(a, b[i]);
      }
    }
  }

  /** An image from some group's pool of six. */
  predicate InPool(image: string) {
    GroupOf(image) in GroupPrefixes && image in Pool(GroupOf(image))
  }

  /** The structural guarantees of a trial plan: twelve images, no repeats,
      each from its group's pool, and exactly two from each of the six groups. */
  predicate IsPlan(images: seq<string>) {
    && |images| == 2 * |GroupPrefixes|
    && Distinct(images)
    && (forall i :: 0 <= i < |images| ==> InPool(images[i]))
    && (forall g :: 0 <= g < |GroupPrefixes| ==> CountGroup(images, GroupPrefixes[g]) == 2)
  }

  lemma SelectedInPool(picks: seq<Pick>, i: nat)
    requires ValidPicks(picks) && i < 2 * |GroupPrefixes|
    ensures InPool(Selected(picks, |GroupPrefixes|)[i])
  {
    SelectedAt(picks, |GroupPrefixes|, i);
    GroupTable();
  }

  lemma SelectedDistinctAt(picks: seq<Pick>, i: nat, j: nat)
    requires ValidPicks(picks) && i < j < 2 * |GroupPrefixes|
    ensures Selected(picks, |GroupPrefixes|)[i] != Selected(picks, |GroupPrefixes|)[j]
  {
    var s := Selected(picks, |GroupPrefixes|);
    SelectedAt(picks, |GroupPrefixes|, i);
    SelectedAt(picks, |GroupPrefixes|, j);
    GroupTable();
    var ni := if i % 2 == 0 then picks[i / 2].first else picks[i / 2].second;
    var nj := if j % 2 == 0 then picks[j / 2].first else picks[j / 2].second;
    if s[i] == s[j] {
      ImageNameInjective(GroupPrefixes[i / 2], ni, GroupPrefixes[j / 2], nj);
    }
  }

  /** Whatever the picks, the selection before shuffling is a trial plan. */
  lemma SelectedIsPlan(picks: seq<Pick>)
    requires ValidPicks(picks)
    ensures IsPlan(Selected(picks, |GroupPrefixes|))
  {
    var k := |GroupPrefixes|;
    var s := Selected(picks, k);
    forall i | 0 <= i < |s| ensures InPool(s[i]) {
      SelectedInPool(picks, i);
    }
    forall i, j | 0 <= i < j < |s| ensures s[i] != s[j] {
      SelectedDistinctAt(picks, i, j);
    }
    forall g | 0 <= g < k ensures CountGroup(s, GroupPrefixes[g]) == 2 {
      CountSelected(picks, k, g);
    }
  }

  /** Any reordering of a trial plan is a trial plan. */
  lemma PlanPermutation(a: seq<string>, b: seq<string>)
    requires IsPlan(a) && multiset(a) == multiset(b)
    ensures IsPlan(b)
  {
    assert |b| == |multiset(b)| == |multiset(a)| == |a|;
    DistinctPermutation(a, b);
    forall i | 0 <= i < |b| ensures InPool(b[i]) {
      assert b[i] in multiset(a);
      var k :| 0 <= k < |a| && a[k] == b[i];
    }
    forall g | 0 <= g < |GroupPrefixes|
      ensures CountGroup(b, GroupPrefixes[g]) == 2
    {
      CountGroupPermutation(a, b, GroupPrefixes[g]);
    }
  }

  /** `s` with the elements at positions `i` and `j` exchanged. */
  function Swap<T>(s: seq<T>, i: nat, j: nat): (r: seq<T>)
    requires i < |s| && j < |s|
    ensures |r| == |s| && multiset(r) == multiset(s)
  {
    s[i := s[j]][j := s[i]]
  }

  /** What `random.shuffle` makes of `s` when it still has to visit positions
      `i`, `i - 1`, ..., 1, swapping each position `k` with position `draws[k]`.
      Every such sequence of swaps only reorders `s`. */
  function FisherYates<T>(s: seq<T>, draws: seq<nat>, i: int): (r: seq<T>)
    requires -1 <= i < |s| && ValidDraws(draws, |s|)
    ensures |r| == |s| && multiset(r) == multiset(s)
    decreases i
  {
    if i <= 0 then s else FisherYates(Swap(s, i, draws[i]), draws, i - 1)
  }

  /** `random.shuffle(x)` in place: for `i` from the last position down to 1,
      swap `x[i]` with `x[draws[i]]`. */
  method Shuffle<T>(a: array<T>, draws: seq<nat>)
    requires ValidDraws(draws, a.Length)
    modifies a
    ensures a[..] == FisherYates(old(a[..]), draws, a.Length - 1)
    ensures multiset(a[..]) == old(multiset(a[..]))
  {
    var i := a.Length - 1;
    while i > 0
      invariant -1 <= i < a.Length
      invariant FisherYates(a[..], draws, i) == FisherYates(old(a[..]), draws, a.Length - 1)
    {
      var j := draws[i];
      ghost var before := a[..];
      a[i], a[j] := a[j], a[i];
      assert a[..] == Swap(before, i, j);
      assert FisherYates(before, draws, i) == FisherYates(a[..], draws, i - 1);
      i := i - 1;
    }
    assert FisherYates(a[..], draws, i) == a[..];
  }

  /** `load_images()`: two images from each group in group order, then shuffled.
      The result is a trial plan holding exactly the picked images. */
  method LoadImages(picks: seq<Pick>, draws: seq<nat>) returns (images: seq<string>)
    requires ValidPicks(picks)
    requires ValidDraws(draws, 2 * |GroupPrefixes|)
    ensures multiset(images) == multiset(Selected(picks, |GroupPrefixes|))
    ensures IsPlan(images)
  {
    var all: seq<string> := [];
    for k := 0 to |GroupPrefixes|
      invariant all == Selected(picks, k)
    {
      var prefix := GroupPrefixes[k];
      all := all + [ImageName(prefix, picks[k].first), ImageName(prefix, picks[k].second)];
    }
    var a := new string[|all|](i requires 0 <= i < |all| => all[i]);
    assert a[..] == all;
    Shuffle(a, draws);
    images := a[..];
    SelectedIsPlan(picks);
    PlanPermutation(all, images);
  }
}
