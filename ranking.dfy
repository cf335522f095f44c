/**
 * Ranking of prototypes by activation for one test image: the ascending
 * index sort, the global top-N selection read from the end of that sort,
 * and the per-class selection with its rank counter restarting at 1.
 * Activations and logits are integers: only their order matters.
 */
module Ranking {
  import opened Outcomes

  /** Every entry of `s` is an index below `n`. */
  predicate InRange(s: seq<nat>, n: nat) {
    forall k :: 0 <= k < |s| ==> s[k] < n
  }

  predicate Distinct(s: seq<nat>) {
    forall p, q :: 0 <= p < q < |s| ==> s[p] != s[q]
  }

  /** The indices `s` are ordered by non-decreasing key. */
  predicate Ascending(keys: seq<int>, s: seq<nat>)
    requires InRange(s, |keys|)
  {
    forall p, q :: 0 <= p < q < |s| ==> keys[s[p]] <= keys[s[q]]
  }

  /** The indices `s` are ordered by non-increasing key. */
  predicate Descending(keys: seq<int>, s: seq<nat>)
    requires InRange(s, |keys|)
  {
    forall p, q :: 0 <= p < q < |s| ==> keys[s[p]] >= keys[s[q]]
  }

  /** `[0, 1, …, n-1]`. */
  function Range(n: nat): (r: seq<nat>)
    ensures |r| == n && forall k :: 0 <= k < n ==> r[k] == k
  {
    seq(n, k => k)
  }

  function Reversed(s: seq<nat>): (r: seq<nat>)
    ensures |r| == |s| && forall k :: 0 <= k < |s| ==> r[k] == s[|s| - 1 - k]
  {
    seq(|s|, k requires 0 <= k < |s| => s[|s| - 1 - k])
  }

  /** Inserts index `x` into `s` before the first entry whose key is not smaller. */
  function Insert(keys: seq<int>, x: nat, s: seq<nat>): (r: seq<nat>)
    requires x < |keys| && InRange(s, |keys|)
    ensures multiset(r) == multiset(s) + multiset{x}
    ensures |r| == |s| + 1 && InRange(r, |keys|)
    decreases |s|
  {
    if s == [] || keys[x] <= keys[s[0]] then [x] + s
    else
      assert s == [s[0]] + s[1..];
      [s[0]] + Insert(keys, x, s[1..])
  }

  /** Inserting into a key-ascending list keeps it key-ascending. */
  lemma {:induction false} InsertAscending(keys: seq<int>, x: nat, s: seq<nat>)
    requires x < |keys| && InRange(s, |keys|) && Ascending(keys, s)
    ensures Ascending(keys, Insert(keys, x, s))
    decreases |s|
  {
    if s != [] && keys[x] > keys[s[0]] {
      var rest := s[1..];
      var tail := Insert(keys, x, rest);
      InsertAscending(keys, x, rest);
      forall k | 0 <= k < |tail| ensures keys[s[0]] <= keys[tail[k]] {
        assert tail[k] in multiset(tail);
        if tail[k] != x {
          assert tail[k] in multiset(rest);
          var t :| 0 <= t < |rest| && rest[t] == tail[k];
          assert s[t + 1] == tail[k];
        }
      }
    }
  }

  /** Insertion sort of the index list `s` by key. */
  function SortIndices(keys: seq<int>, s: seq<nat>): (r: seq<nat>)
    requires InRange(s, |keys|)
    ensures multiset(r) == multiset(s) && |r| == |s|
    ensures InRange(r, |keys|) && Ascending(keys, r)
    decreases |s|
  {
    if s == [] then []
    else
      assert s == [s[0]] + s[1..];
      var sortedTail := SortIndices(keys, s[1..]);
      InsertAscending(keys, s[0], sortedTail);
      Insert(keys, s[0], sortedTail)
  }

  /**
   * The index result of an ascending sort of `keys`: a permutation of the
   * positions of `keys` under which the keys do not decrease. This contract
   * leaves the order of equal keys open; `ArgSortStable` proves the order the
   * model fixes (equal keys in increasing index order).
   */
  function ArgSort(keys: seq<int>): (r: seq<nat>)
    ensures |r| == |keys| && multiset(r) == multiset(Range(|keys|))
    ensures InRange(r, |keys|) && Ascending(keys, r)
  {
    SortIndices(keys, Range(|keys|))
  }

  /** Among equal keys, `s` lists the smaller index first. */
  predicate StableTies(keys: seq<int>, s: seq<nat>)
    requires InRange(s, |keys|)
  {
    forall p, q :: 0 <= p < q < |s| && keys[s[p]] == keys[s[q]] ==> s[p] < s[q]
  }

  /** Putting an index in front keeps equal keys in index order when it is below every equally keyed entry. */
  lemma ConsStable(keys: seq<int>, h: nat, tail: seq<nat>)
    requires h < |keys| && InRange(tail, |keys|) && StableTies(keys, tail)
    requires forall k :: 0 <= k < |tail| && keys[h] == keys[tail[k]] ==> h < tail[k]
    ensures InRange([h] + tail, |keys|) && StableTies(keys, [h] + tail)
  {
    var r := [h] + tail;
    forall p, q | 0 <= p < q < |r| && keys[r[p]] == keys[r[q]] ensures r[p] < r[q] {
      if p > 0 {
        assert r[p] == tail[p - 1] && r[q] == tail[q - 1];
      } else {
        assert r[q] == tail[q - 1];
      }
    }
  }

  /** Inserting an index smaller than all present keeps equal keys in index order. */
  lemma {:induction false} InsertStable(keys: seq<int>, x: nat, s: seq<nat>)
    requires x < |keys| && InRange(s, |keys|) && StableTies(keys, s)
    requires forall k :: 0 <= k < |s| ==> x < s[k]
    ensures StableTies(keys, Insert(keys, x, s))
    decreases |s|
  {
    if s == [] || keys[x] <= keys[s[0]] {
      ConsStable(keys, x, s);
    } else {
      var rest := s[1..];
      var tail := Insert(keys, x, rest);
      InsertStable(keys, x, rest);
      forall k | 0 <= k < |tail| && keys[s[0]] == keys[tail[k]] ensures s[0] < tail[k] {
        assert tail[k] in multiset(tail);
        if tail[k] != x {
          assert tail[k] in multiset(rest);
          var t :| 0 <= t < |rest| && rest[t] == tail[k];
          assert s[t + 1] == tail[k];
        }
      }
      ConsStable(keys, s[0], tail);
    }
  }

  /** Sorting an increasing list of indices keeps equal keys in index order. */
  lemma {:induction false} SortIndicesStable(keys: seq<int>, s: seq<nat>)
    requires InRange(s, |keys|)
    requires forall p, q :: 0 <= p < q < |s| ==> s[p] < s[q]
    ensures StableTies(keys, SortIndices(keys, s))
    decreases |s|
  {
    if s != [] {
      var rest := s[1..];
      var sortedTail := SortIndices(keys, rest);
      SortIndicesStable(keys, rest);
      forall k | 0 <= k < |sortedTail| ensures s[0] < sortedTail[k] {
        assert sortedTail[k] in multiset(rest);
        var t :| 0 <= t < |rest| && rest[t] == sortedTail[k];
        assert s[t + 1] == sortedTail[k];
      }
      InsertStable(keys, s[0], sortedTail);
    }
  }

  /** The ascending index sort is stable: equal keys keep their index order. */
  lemma ArgSortStable(keys: seq<int>)
    ensures StableTies(keys, ArgSort(keys))
  {
    SortIndicesStable(keys, Range(|keys|));
  }

  /** Every key moved by the same offset `d`. */
  function Shifted(keys: seq<int>, d: int): (r: seq<int>)
    ensures |r| == |keys| && forall k :: 0 <= k < |keys| ==> r[k] == keys[k] + d
  {
    seq(|keys|, k requires 0 <= k < |keys| => keys[k] + d)
  }

  /** Insertion only compares keys, so a common offset does not change where `x` lands. */
  lemma {:induction false} InsertShifted(keys: seq<int>, d: int, x: nat, s: seq<nat>)
    requires x < |keys| && InRange(s, |keys|)
    ensures Insert(Shifted(keys, d), x, s) == Insert(keys, x, s)
    decreases |s|
  {
    if s != [] && keys[x] > keys[s[0]] {
      InsertShifted(keys, d, x, s[1..]);
    }
  }

  lemma {:induction false} SortIndicesShifted(keys: seq<int>, d: int, s: seq<nat>)
    requires InRange(s, |keys|)
    ensures SortIndices(Shifted(keys, d), s) == SortIndices(keys, s)
    decreases |s|
  {
    if s != [] {
      SortIndicesShifted(keys, d, s[1..]);
      InsertShifted(keys, d, s[0], SortIndices(keys, s[1..]));
    }
  }

  /**
   * Adding the same constant to every activation (the `+ max_dist` offset of
   * a linear activation function) leaves every top-n ranking unchanged, in
   * exact integer arithmetic.
   */
  lemma TopIndicesShifted(keys: seq<int>, d: int, n: nat)
    requires n <= |keys|
    ensures TopIndices(Shifted(keys, d), n) == TopIndices(keys, n)
  {
    SortIndicesShifted(keys, d, Range(|keys|));
  }

  /** Each index below n occurs once in `Range(n)`, and nothing else does. */
  lemma {:induction false} RangeCounts(n: nat)
    ensures forall v: nat :: multiset(Range(n))[v] == if v < n then 1 else 0
  {
    if n > 0 {
      RangeCounts(n - 1);
      assert Range(n) == Range(n - 1) + [n - 1];
      assert multiset(Range(n)) == multiset(Range(n - 1)) + multiset([n - 1]);
      forall v: nat ensures multiset(Range(n))[v] == if v < n then 1 else 0 {
        assert multiset([n - 1])[v] == if v == n - 1 then 1 else 0;
      }
    }
  }

  /** An entry that occurs again later in `s` is counted at least twice. */
  lemma CountRepeated(s: seq<nat>, p: nat, q: nat)
    requires p < q < |s|
    ensures multiset(s)[s[p]] >= if s[q] == s[p] then 2 else 1
  {
    assert s == s[..q] + s[q..];
    assert s[p] in s[..q];
    assert s[q] in s[q..];
  }

  /** A rearrangement of `Range(n)` holds every index below n exactly once. */
  lemma PermutationOfRange(s: seq<nat>, n: nat)
    requires multiset(s) == multiset(Range(n))
    ensures |s| == n && InRange(s, n) && Distinct(s)
    ensures forall v :: 0 <= v < n ==> v in s
  {
    RangeCounts(n);
    assert |s| == |multiset(s)| == |multiset(Range(n))| == n;
    forall k | 0 <= k < |s| ensures s[k] < n {
      assert s[k] in multiset(s);
    }
    forall p, q | 0 <= p < q < |s| ensures s[p] != s[q] {
      CountRepeated(s, p, q);
    }
    forall v | 0 <= v < n ensures v in s {
      assert multiset(s)[v] == 1;
    }
  }

  /**
   * `torch.sort(keys)` read from the end, `sorted[-1], …, sorted[-n]`: the
   * indices of the n highest keys, highest first.
   */
  function TopIndices(keys: seq<int>, n: nat): (r: seq<nat>)
    requires n <= |keys|
    ensures |r| == n && InRange(r, |keys|)
    ensures forall k :: 0 <= k < n ==> r[k] == ArgSort(keys)[|keys| - 1 - k]
  {
    Reversed(ArgSort(keys))[..n]
  }

  /** The top-n indices are distinct and their keys do not increase with rank. */
  lemma TopIndicesOrdered(keys: seq<int>, n: nat)
    requires n <= |keys|
    ensures Distinct(TopIndices(keys, n)) && Descending(keys, TopIndices(keys, n))
  {
    PermutationOfRange(ArgSort(keys), |keys|);
  }

  /** No index left out of the top n has a larger key than any index taken. */
  lemma TopIndicesDominate(keys: seq<int>, n: nat)
    requires n <= |keys|
    ensures forall j, k :: 0 <= j < |keys| && j !in TopIndices(keys, n) && 0 <= k < n ==>
              keys[j] <= keys[TopIndices(keys, n)[k]]
  {
    var sorted, r, m := ArgSort(keys), TopIndices(keys, n), |keys|;
    PermutationOfRange(sorted, m);
    forall t | m - n <= t < m ensures sorted[t] in r {
      assert r[m - 1 - t] == sorted[t];
    }
    forall j, k | 0 <= j < m && j !in r && 0 <= k < n ensures keys[j] <= keys[r[k]] {
      assert j in sorted;
      var t :| 0 <= t < m && sorted[t] == j;
      assert t < m - n;
    }
  }

  /** Taking all the indices lists every position. */
  lemma TopIndicesCover(keys: seq<int>)
    ensures forall v :: 0 <= v < |keys| ==> v in TopIndices(keys, |keys|)
  {
    var sorted, r, m := ArgSort(keys), TopIndices(keys, |keys|), |keys|;
    PermutationOfRange(sorted, m);
    forall v | 0 <= v < m ensures v in r {
      assert v in sorted;
      var t :| 0 <= t < m && sorted[t] == v;
      assert r[m - 1 - t] == v;
    }
  }

  /**
   * The tie order the model fixes: among equally keyed indices in the top n,
   * the larger index ranks first (the stable ascending sort read from its end).
   */
  lemma TopIndicesTieOrder(keys: seq<int>, n: nat)
    requires n <= |keys|
    ensures forall p, q :: 0 <= p < q < n && keys[TopIndices(keys, n)[p]] == keys[TopIndices(keys, n)[q]] ==>
              TopIndices(keys, n)[p] > TopIndices(keys, n)[q]
  {
    ArgSortStable(keys);
    var sorted, r, m := ArgSort(keys), TopIndices(keys, n), |keys|;
    forall p, q | 0 <= p < q < n && keys[r[p]] == keys[r[q]] ensures r[p] > r[q] {
      assert r[p] == sorted[m - 1 - p] && r[q] == sorted[m - 1 - q];
    }
  }

  /**
   * The top-n indices are n distinct positions, their keys do not increase
   * with rank, no index left out has a larger key than any index taken, and
   * taking all of them lists every position.
   */
  lemma TopIndicesFacts(keys: seq<int>, n: nat)
    requires n <= |keys|
    ensures Distinct(TopIndices(keys, n)) && Descending(keys, TopIndices(keys, n))
    ensures forall j, k :: 0 <= j < |keys| && j !in TopIndices(keys, n) && 0 <= k < n ==>
              keys[j] <= keys[TopIndices(keys, n)[k]]
    ensures n == |keys| ==> forall v :: 0 <= v < |keys| ==> v in TopIndices(keys, n)
  {
    TopIndicesOrdered(keys, n);
    TopIndicesDominate(keys, n);
    TopIndicesCover(keys);
  }

  /**
   * The most activated prototypes, `top-1 … top-N`: the loop over i = 1..N
   * reads `sorted[-i]`; when N exceeds the number of prototypes the index
   * `-i` runs off the start and the loop stops with the ranks written so far.
   * For N of zero or below the range is empty and nothing is ranked.
   */
  method MostActivated(act: seq<int>, topPrototypes: int) returns (ranked: seq<nat>, completed: bool)
    ensures completed <==> topPrototypes <= |act|
    ensures topPrototypes <= 0 ==> ranked == []
    ensures 0 <= topPrototypes <= |act| ==> |ranked| == topPrototypes
    ensures !completed ==> |ranked| == |act|
    ensures ranked == TopIndices(act, |ranked|)
    ensures InRange(ranked, |act|) && Distinct(ranked) && Descending(act, ranked)
    ensures forall j, k :: 0 <= j < |act| && j !in ranked && 0 <= k < |ranked| ==> act[j] <= act[ranked[k]]
  {
    var sortedIndices := ArgSort(act);
    ranked := [];
    var i := 1;
    while i <= topPrototypes
      invariant 1 <= i && i - 1 <= |act|
      invariant topPrototypes < 1 ==> i == 1
      invariant topPrototypes >= 1 ==> i <= topPrototypes + 1
      invariant |ranked| == i - 1
      invariant forall k :: 0 <= k < |ranked| ==> ranked[k] == sortedIndices[|act| - 1 - k]
    {
      if i > |sortedIndices| {
        break;
      }
      ranked := ranked + [sortedIndices[|sortedIndices| - i]];
      i := i + 1;
    }
    completed := i > topPrototypes;
    TopIndicesFacts(act, |ranked|);
  }

  /**
   * `np.nonzero(prototype_class_identity[:, c])[0]`: the prototypes whose
   * identity entry for class c is nonzero, in increasing index order.
   */
  function ClassMembers(identity: seq<seq<int>>, c: nat): (members: seq<nat>)
    requires forall p :: 0 <= p < |identity| ==> c < |identity[p]|
    ensures InRange(members, |identity|)
    ensures forall a, b :: 0 <= a < b < |members| ==> members[a] < members[b]
    ensures forall p :: 0 <= p < |identity| ==> (p in members <==> identity[p][c] != 0)
    decreases |identity|
  {
    if identity == [] then []
    else
      var last := |identity| - 1;
      var rest := ClassMembers(identity[..last], c);
      assert forall p :: 0 <= p < last ==> identity[..last][p] == identity[p];
      if identity[last][c] != 0 then rest + [last] else rest
  }

  /** The activations of the given prototypes, in the same order. */
  function Gather(act: seq<int>, indices: seq<nat>): (r: seq<int>)
    requires InRange(indices, |act|)
    ensures |r| == |indices| && forall j :: 0 <= j < |indices| ==> r[j] == act[indices[j]]
  {
    seq(|indices|, j requires 0 <= j < |indices| => act[indices[j]])
  }

  /** The `top-{rank}_prototype` entry of a class: its rank and the prototype index. */
  datatype ClassEntry = ClassEntry(rank: nat, prototype: nat)

  function Prototypes(entries: seq<ClassEntry>): (r: seq<nat>)
    ensures |r| == |entries| && forall t :: 0 <= t < |entries| ==> r[t] == entries[t].prototype
  {
    seq(|entries|, t requires 0 <= t < |entries| => entries[t].prototype)
  }

  /**
   * What the per-class listing of class c promises: ranks 1, 2, … in order,
   * each prototype of class c exactly once and no other, highest activation first.
   */
  predicate IsClassRanking(identity: seq<seq<int>>, act: seq<int>, c: nat, entries: seq<ClassEntry>)
    requires |identity| == |act|
    requires forall p :: 0 <= p < |identity| ==> c < |identity[p]|
  {
    && (forall t :: 0 <= t < |entries| ==> entries[t].rank == t + 1)
    && InRange(Prototypes(entries), |act|)
    && Distinct(Prototypes(entries))
    && Descending(act, Prototypes(entries))
    && (forall p :: 0 <= p < |act| ==> (p in Prototypes(entries) <==> identity[p][c] != 0))
  }

  /** Distinct positions into a strictly increasing list pick distinct entries. */
  lemma PickDistinct(members: seq<nat>, order: seq<nat>, protos: seq<nat>)
    requires InRange(order, |members|) && Distinct(order)
    requires forall a, b :: 0 <= a < b < |members| ==> members[a] < members[b]
    requires |protos| == |order| && forall t :: 0 <= t < |order| ==> protos[t] == members[order[t]]
    ensures Distinct(protos)
  {
    forall p, q | 0 <= p < q < |protos| ensures protos[p] != protos[q] {
      assert order[p] < order[q] ==> members[order[p]] < members[order[q]];
      assert order[q] < order[p] ==> members[order[q]] < members[order[p]];
    }
  }

  /** Positions covering a list pick every entry of it. */
  lemma PickCovers(members: seq<nat>, order: seq<nat>, protos: seq<nat>)
    requires forall v :: 0 <= v < |members| ==> v in order
    requires InRange(order, |members|)
    requires |protos| == |order| && forall t :: 0 <= t < |order| ==> protos[t] == members[order[t]]
    ensures forall p :: p in members ==> p in protos
  {
    forall p | p in members ensures p in protos {
      var j :| 0 <= j < |members| && members[j] == p;
      assert j in order;
      var t :| 0 <= t < |order| && order[t] == j;
      assert protos[t] == p;
    }
  }

  /** Listing the members of a class through the reversed sort of their activations gives a class ranking. */
  lemma ClassRankingOf(identity: seq<seq<int>>, act: seq<int>, c: nat, members: seq<nat>,
                       order: seq<nat>, entries: seq<ClassEntry>)
    requires |identity| == |act|
    requires forall p :: 0 <= p < |identity| ==> c < |identity[p]|
    requires members == ClassMembers(identity, c)
    requires order == TopIndices(Gather(act, members), |members|)
    requires |entries| == |order|
    requires forall t :: 0 <= t < |entries| ==> entries[t] == ClassEntry(t + 1, members[order[t]])
    ensures IsClassRanking(identity, act, c, entries)
  {
    var keys := Gather(act, members);
    TopIndicesFacts(keys, |members|);
    var protos := Prototypes(entries);
    PickDistinct(members, order, protos);
    PickCovers(members, order, protos);
    PickDescending(act, members, order, protos);
    PickMembership(identity, c, members, order, protos);
  }

  /** Picking members in key-descending order lists their activations in descending order. */
  lemma PickDescending(act: seq<int>, members: seq<nat>, order: seq<nat>, protos: seq<nat>)
    requires InRange(members, |act|)
    requires InRange(order, |members|) && Descending(Gather(act, members), order)
    requires |protos| == |order| && forall t :: 0 <= t < |order| ==> protos[t] == members[order[t]]
    ensures InRange(protos, |act|) && Descending(act, protos)
  {
    var keys := Gather(act, members);
    forall p, q | 0 <= p < q < |protos| ensures act[protos[p]] >= act[protos[q]] {
      assert act[protos[p]] == keys[order[p]] && act[protos[q]] == keys[order[q]];
    }
  }

  /** Picking every member and nothing else gives exactly the prototypes of class c. */
  lemma PickMembership(identity: seq<seq<int>>, c: nat, members: seq<nat>, order: seq<nat>, protos: seq<nat>)
    requires forall p :: 0 <= p < |identity| ==> c < |identity[p]|
    requires members == ClassMembers(identity, c)
    requires InRange(order, |members|)
    requires |protos| == |order| && forall t :: 0 <= t < |order| ==> protos[t] == members[order[t]]
    requires forall p :: p in members ==> p in protos
    ensures forall p :: 0 <= p < |identity| ==> (p in protos <==> identity[p][c] != 0)
  {
    forall p | 0 <= p < |identity| ensures p in protos <==> identity[p][c] != 0 {
      if p in protos {
        var t :| 0 <= t < |protos| && protos[t] == p;
        assert p == members[order[t]];
      }
    }
  }

  /**
   * The prototypes of class c, `top-1_prototype, top-2_prototype, …`: the loop
   * walks the reversed ascending sort of the class's activations and numbers
   * the entries with a counter that starts at 1.
   */
  method ClassPrototypes(identity: seq<seq<int>>, act: seq<int>, c: nat) returns (entries: seq<ClassEntry>)
    requires |identity| == |act|
    requires forall p :: 0 <= p < |identity| ==> c < |identity[p]|
    ensures IsClassRanking(identity, act, c, entries)
  {
    var members := ClassMembers(identity, c);
    var memberActs := Gather(act, members);
    var sortedMembers := ArgSort(memberActs);
    var reversedIndices := Reversed(sortedMembers);
    var prototypeCnt := 1;
    entries := [];
    for t := 0 to |reversedIndices|
      invariant prototypeCnt == t + 1
      invariant |entries| == t
      invariant forall u :: 0 <= u < t ==> entries[u] == ClassEntry(u + 1, members[reversedIndices[u]])
    {
      var j := reversedIndices[t];
      var prototypeIndex := members[j];
      entries := entries + [ClassEntry(prototypeCnt, prototypeIndex)];
      prototypeCnt := prototypeCnt + 1;
    }
    assert reversedIndices == TopIndices(memberActs, |members|);
    ClassRankingOf(identity, act, c, members, reversedIndices, entries);
  }

  /** The `top-{rank}_class` section: the class and its ranked prototypes. */
  datatype ClassSection = ClassSection(rank: nat, cls: nat, entries: seq<ClassEntry>)

  datatype SelectionError =
    | TooManyClasses(k: int, numClasses: nat)   // the `k < len(dataset.classes)` assertion
    | TopKOutOfRange(k: int, numLogits: nat)    // `topk` asked for a negative k or more classes than there are logits

  /**
   * The prototypes of the top-k classes: after the assertion that k is below
   * the number of dataset classes, the k classes with the highest logits,
   * highest first, each followed by its own class ranking. A negative k
   * passes the assertion and is refused by topk.
   */
  method ClassSections(identity: seq<seq<int>>, act: seq<int>, logits: seq<int>, k: int, numClasses: nat)
    returns (r: Result<seq<ClassSection>, SelectionError>)
    requires |identity| == |act|
    requires forall p :: 0 <= p < |identity| ==> |identity[p]| == |logits|
    ensures k >= numClasses ==> r == Failure(TooManyClasses(k, numClasses))
    ensures k < numClasses && (k < 0 || k > |logits|) ==> r == Failure(TopKOutOfRange(k, |logits|))
    ensures k < numClasses && 0 <= k <= |logits| ==> r.Success?
    ensures r.Success? ==>
              && |r.value| == k
              && (forall i :: 0 <= i < k ==> r.value[i].rank == i + 1 && r.value[i].cls < |logits|)
              && (forall i :: 0 <= i < k ==> r.value[i].cls == TopIndices(logits, k)[i])
              && (forall i :: 0 <= i < k ==> IsClassRanking(identity, act, r.value[i].cls, r.value[i].entries))
  {
    if k >= numClasses {
      return Failure(TooManyClasses(k, numClasses));
    }
    if k < 0 || k > |logits| {
      return Failure(TopKOutOfRange(k, |logits|));
    }
    var topkClasses := TopIndices(logits, k);
    var sections: seq<ClassSection> := [];
    for i := 0 to k
      invariant |sections| == i
      invariant forall u :: 0 <= u < i ==> sections[u].rank == u + 1 && sections[u].cls == topkClasses[u]
      invariant forall u :: 0 <= u < i ==> IsClassRanking(identity, act, sections[u].cls, sections[u].entries)
    {
      var c := topkClasses[i];
      var entries := ClassPrototypes(identity, act, c);
      sections := sections + [ClassSection(i + 1, c, entries)];
    }
    r := Success(sections);
  }
}
