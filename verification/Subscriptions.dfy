/** Which publishers to subscribe to and which to leave (network/src/pub_sub/mod.rs, `diff`): every group of
addresses is to be covered by one subscription. */
module Subscriptions {

  function KeysOf<Key>(group: seq<Key>): set<Key> { set k | k in group }

  function AllKeys<Key>(groups: seq<seq<Key>>): set<Key> {
    if groups == [] then {} else AllKeys(groups[..|groups| - 1]) + KeysOf(groups[|groups| - 1])
  }

  /** Collecting into a map: of several values for a key the last one counts. */
  function Collect<Key, Value>(pairs: seq<(Key, Value)>): map<Key, Value>
    decreases |pairs|
  {
    if pairs == [] then map[]
    else
      var n := |pairs| - 1;
      Collect(pairs[..n])[pairs[n].0 := pairs[n].1]
  }

  /** Exactly the keys of the pairs, each with the last value it is paired with. */
  lemma {:induction false} CollectTakesTheLast<Key, Value>(pairs: seq<(Key, Value)>, k: Key)
    ensures k in Collect(pairs) <==> exists i :: 0 <= i < |pairs| && pairs[i].0 == k
    ensures k in Collect(pairs) ==>
              exists i :: 0 <= i < |pairs| && pairs[i] == (k, Collect(pairs)[k])
                          && forall j :: i < j < |pairs| ==> pairs[j].0 != k
    decreases |pairs|
  {
    if pairs != [] {
      var n := |pairs| - 1;
      CollectTakesTheLast(pairs[..n], k);
      assert pairs == pairs[..n] + [pairs[n]];
      if pairs[n].0 == k {
        assert pairs[n] == (k, Collect(pairs)[k]);
      } else if k in Collect(pairs) {
        var i :| && 0 <= i < n && pairs[..n][i] == (k, Collect(pairs[..n])[k])
                 && forall j :: i < j < n ==> pairs[..n][j].0 != k;
        assert pairs[i] == (k, Collect(pairs)[k]);
      }
    }
  }

  /** The groups to subscribe to, when subscriptions to the keys `current` exist: in order, each group that has
      no key in common with `current` or with a group already chosen. */
  function Chosen<Key>(current: set<Key>, target: seq<seq<Key>>): seq<seq<Key>> {
    if target == [] then []
    else
      var n := |target| - 1;
      var before := Chosen(current, target[..n]);
      if KeysOf(target[n]) !! current + AllKeys(before) then before + [target[n]] else before
  }

  // ----- what is chosen -----

  lemma {:induction false} KeyOfGroup<Key>(groups: seq<seq<Key>>, i: nat)
    requires i < |groups|
    ensures KeysOf(groups[i]) <= AllKeys(groups)
  {
    if i < |groups| - 1 {
      KeyOfGroup(groups[..|groups| - 1], i);
    }
  }

  lemma {:induction false} GroupOfKey<Key>(groups: seq<seq<Key>>, k: Key) returns (i: nat)
    requires k in AllKeys(groups)
    ensures i < |groups| && k in groups[i]
  {
    var n := |groups| - 1;
    if k in groups[n] {
      i := n;
    } else {
      i := GroupOfKey(groups[..n], k);
    }
  }

  lemma {:induction false} IndexOfChosen<Key>(current: set<Key>, target: seq<seq<Key>>, i: nat) returns (j: nat)
    requires i < |Chosen(current, target)|
    ensures j < |target| && target[j] == Chosen(current, target)[i] && KeysOf(target[j]) !! current
  {
    var n := |target| - 1;
    if i < |Chosen(current, target[..n])| {
      j := IndexOfChosen(current, target[..n], i);
    } else {
      j := n;
    }
  }

  lemma {:induction false} ChosenAreApart<Key>(current: set<Key>, target: seq<seq<Key>>, i: nat, j: nat)
    requires i < j < |Chosen(current, target)|
    ensures KeysOf(Chosen(current, target)[i]) !! KeysOf(Chosen(current, target)[j])
  {
    var n := |target| - 1;
    var before := Chosen(current, target[..n]);
    if j < |before| {
      ChosenAreApart(current, target[..n], i, j);
    } else {
      KeyOfGroup(before, i);
    }
  }

  /** The chosen groups are groups of the target, and neither they nor the current keys overlap. */
  lemma ChosenAreDisjoint<Key>(current: set<Key>, target: seq<seq<Key>>)
    ensures var c := Chosen(current, target);
            && (forall i :: 0 <= i < |c| ==> c[i] in target && KeysOf(c[i]) !! current)
            && (forall i, j :: 0 <= i < j < |c| ==> KeysOf(c[i]) !! KeysOf(c[j]))
  {
    hide Chosen;
    var c := Chosen(current, target);
    forall i | 0 <= i < |c| ensures c[i] in target && KeysOf(c[i]) !! current {
      var j := IndexOfChosen(current, target, i);
      assert target[j] in target;
    }
    forall i, j | 0 <= i < j < |c| ensures KeysOf(c[i]) !! KeysOf(c[j]) {
      ChosenAreApart(current, target, i, j);
    }
  }

  lemma {:induction false} ChosenGrows<Key>(current: set<Key>, target: seq<seq<Key>>, n: nat)
    requires n <= |target|
    ensures Chosen(current, target[..n]) <= Chosen(current, target)
  {
    if n == |target| {
      assert target[..n] == target;
    } else {
      var m := |target| - 1;
      ChosenGrows(current, target[..m], n);
      assert target[..m][..n] == target[..n];
    }
  }

  /** Every group is chosen, or it has a key in common with the current keys or with a group chosen before it. */
  lemma SkippedOverlaps<Key>(current: set<Key>, target: seq<seq<Key>>, i: nat)
    requires i < |target|
    ensures || target[i] in Chosen(current, target)
            || !(KeysOf(target[i]) !! current)
            || exists j, k :: 0 <= j < i && target[j] in Chosen(current, target) && k in target[j] && k in target[i]
  {
    assert target[..i + 1][..i] == target[..i];
    var before, after := Chosen(current, target[..i]), Chosen(current, target[..i + 1]);
    if KeysOf(target[i]) !! current + AllKeys(before) {
      assert after == before + [target[i]] && after[|before|] == target[i];
      ChosenGrows(current, target, i + 1);
      assert Chosen(current, target)[|before|] == target[i];
    } else if KeysOf(target[i]) !! current {
      var k := CommonKey(KeysOf(target[i]), current, AllKeys(before));
      var c := GroupOfKey(before, k);
      var j := IndexOfChosen(current, target[..i], c);
      ChosenGrows(current, target, i);
      assert Chosen(current, target)[c] == target[j];
    }
  }

  lemma CommonKey<Key>(a: set<Key>, b: set<Key>, c: set<Key>) returns (k: Key)
    requires a !! b && !(a !! b + c)
    ensures k in a && k in c
  {
    k :| k in a && k in b + c;
  }

  // ----- the loops -----

  method Unpreserved<Key(==), Value>(original: seq<(Key, Value)>) returns (preserve: map<Key, (Value, bool)>)
    ensures preserve == map k | k in Collect(original) :: (Collect(original)[k], false)
  {
    preserve := map[];
    for i := 0 to |original|
      invariant preserve == map k | k in Collect(original[..i]) :: (Collect(original[..i])[k], false)
    {
      assert original[..i + 1][..i] == original[..i];
      preserve := preserve[original[i].0 := (original[i].1, false)];
    }
    assert original[..|original|] == original;
  }

  method MarkGroup<Key(==), Value>(preserve: map<Key, (Value, bool)>, includedKeys: set<Key>, group: seq<Key>)
    returns (marked: map<Key, (Value, bool)>, allKeysAreNew: bool)
    ensures marked == map k | k in preserve :: (preserve[k].0, preserve[k].1 || k in group)
    ensures allKeysAreNew <==> KeysOf(group) !! preserve.Keys + includedKeys
  {
    marked, allKeysAreNew := preserve, true;
    for j := 0 to |group|
      invariant marked == map k | k in preserve :: (preserve[k].0, preserve[k].1 || k in group[..j])
      invariant allKeysAreNew <==> KeysOf(group[..j]) !! preserve.Keys + includedKeys
    {
      var key := group[j];
      assert KeysOf(group[..j + 1]) == KeysOf(group[..j]) + {key};
      if key in marked {
        allKeysAreNew := false;
        marked := marked[key := (marked[key].0, true)];
      } else if key in includedKeys {
        allKeysAreNew := false;
      }
    }
    assert group[..|group|] == group;
  }

  lemma NoGroups<Key>(current: set<Key>)
    ensures AllKeys<Key>([]) == {} && Chosen(current, []) == []
  {
  }

  lemma OneMoreGroup<Key>(current: set<Key>, target: seq<seq<Key>>, g: nat)
    requires g < |target|
    ensures AllKeys(target[..g + 1]) == AllKeys(target[..g]) + KeysOf(target[g])
    ensures var before := Chosen(current, target[..g]);
            if KeysOf(target[g]) !! current + AllKeys(before) then
              && Chosen(current, target[..g + 1]) == before + [target[g]]
              && AllKeys(before + [target[g]]) == AllKeys(before) + KeysOf(target[g])
            else
              Chosen(current, target[..g + 1]) == before
  {
    assert target[..g + 1][..g] == target[..g];
    var before := Chosen(current, target[..g]);
    assert (before + [target[g]])[..|before|] == before;
  }

  /** `diff`. `dropped` are the keys of the excluded values, in the arbitrary order of the map. */
  method Diff<Key(==), Value>(original: seq<(Key, Value)>, target: seq<seq<Key>>)
    returns (included: seq<seq<Key>>, excluded: seq<Value>, ghost dropped: seq<Key>)
    ensures included == Chosen(Collect(original).Keys, target)
    ensures KeysOf(dropped) == Collect(original).Keys - AllKeys(target)
    ensures forall i, j :: 0 <= i < j < |dropped| ==> dropped[i] != dropped[j]
    ensures |excluded| == |dropped|
    ensures forall i :: 0 <= i < |dropped| ==>
              dropped[i] in Collect(original) && excluded[i] == Collect(original)[dropped[i]]
  {
    hide Collect, AllKeys, Chosen;
    var preserve := Unpreserved(original);
    ghost var current := Collect(original);
    var includedKeys: set<Key> := {};
    included := [];
    NoGroups(current.Keys);
    for g := 0 to |target|
      invariant preserve == map k | k in current :: (current[k], k in AllKeys(target[..g]))
      invariant included == Chosen(current.Keys, target[..g]) && includedKeys == AllKeys(included)
    {
      OneMoreGroup(current.Keys, target, g);
      var allKeysAreNew;
      preserve, allKeysAreNew := MarkGroup(preserve, includedKeys, target[g]);
      if allKeysAreNew {
        includedKeys := includedKeys + (set k | k in target[g]);
        included := included + [target[g]];
      }
    }
    assert target[..|target|] == target;
    excluded, dropped := Unmarked(preserve);
  }

  /** The values that are not to be preserved. */
  method Unmarked<Key(==), Value>(preserve: map<Key, (Value, bool)>)
    returns (excluded: seq<Value>, ghost dropped: seq<Key>)
    ensures KeysOf(dropped) == set k | k in preserve && !preserve[k].1
    ensures forall i, j :: 0 <= i < j < |dropped| ==> dropped[i] != dropped[j]
    ensures |excluded| == |dropped|
    ensures forall i :: 0 <= i < |dropped| ==> dropped[i] in preserve && excluded[i] == preserve[dropped[i]].0
  {
    excluded, dropped := [], [];
    var pending := preserve.Keys;
    while pending != {}
      invariant pending <= preserve.Keys
      invariant KeysOf(dropped) == set k | k in preserve && k !in pending && !preserve[k].1
      invariant forall i, j :: 0 <= i < j < |dropped| ==> dropped[i] != dropped[j]
      invariant |excluded| == |dropped|
      invariant forall i :: 0 <= i < |dropped| ==> dropped[i] in preserve && excluded[i] == preserve[dropped[i]].0
      decreases pending
    {
      var key :| key in pending;
      pending := pending - {key};
      if !preserve[key].1 {
        assert key !in KeysOf(dropped);
        assert KeysOf(dropped + [key]) == KeysOf(dropped) + {key};
        excluded, dropped := excluded + [preserve[key].0], dropped + [key];
      }
    }
  }

  // ----- round after round -----

  ghost predicate Covered<Key>(current: set<Key>, group: seq<Key>) { !(KeysOf(group) !! current) }

  function NumUncovered<Key>(current: set<Key>, target: seq<seq<Key>>): (n: nat)
    ensures n <= |target|
  {
    if target == [] then 0
    else
      var n := |target| - 1;
      NumUncovered(current, target[..n]) + if KeysOf(target[n]) !! current then 1 else 0
  }

  /** After one round in which every attempt succeeds that can: the excluded connections are gone, and each
      chosen group that has an address is connected to one of its addresses. */
  ghost predicate Round<Key(!new)>(current: set<Key>, target: seq<seq<Key>>, next: set<Key>) {
    && current * AllKeys(target) <= next
    && next <= current * AllKeys(target) + AllKeys(Chosen(current, target))
    && (forall g :: g in Chosen(current, target) && g != [] ==> Covered(next, g))
  }

  ghost predicate AreRounds<Key(!new)>(rounds: seq<set<Key>>, target: seq<seq<Key>>) {
    forall i :: 0 < i < |rounds| ==> Round(rounds[i - 1], target, rounds[i])
  }

  lemma {:induction false} NoGroupIsNew<Key>(current: set<Key>, target: seq<seq<Key>>)
    ensures NumUncovered(current, target) == 0 ==> Chosen(current, target) == []
  {
    if target != [] {
      NoGroupIsNew(current, target[..|target| - 1]);
    }
  }

  lemma {:induction false} EmptyGroupIsAlwaysChosen<Key>(current: set<Key>, target: seq<seq<Key>>)
    requires [] in target
    ensures [] in Chosen(current, target)
  {
    var n := |target| - 1;
    if target[n] != [] {
      assert target == target[..n] + [target[n]];
      EmptyGroupIsAlwaysChosen(current, target[..n]);
    } else {
      assert KeysOf(target[n]) == {};
    }
  }

  /** What is covered stays covered. */
  lemma {:induction false} FewerUncovered<Key>(
      current: set<Key>, target: seq<seq<Key>>, next: set<Key>, newly: seq<Key>)
    requires current * AllKeys(target) <= next
    ensures NumUncovered(next, target) <= NumUncovered(current, target)
    ensures newly in target && !Covered(current, newly) && Covered(next, newly) ==>
              NumUncovered(next, target) < NumUncovered(current, target)
  {
    if target != [] {
      var n := |target| - 1;
      assert target == target[..n] + [target[n]];
      FewerUncovered(current, target[..n], next, newly);
      if Covered(current, target[n]) {
        var k :| k in KeysOf(target[n]) && k in current;
        assert k in next;
      }
    }
  }

  lemma {:induction false} ChosenKeys<Key>(current: set<Key>, target: seq<seq<Key>>)
    ensures AllKeys(Chosen(current, target)) <= AllKeys(target)
  {
    if target != [] {
      var n := |target| - 1;
      ChosenKeys(current, target[..n]);
      var before := Chosen(current, target[..n]);
      assert (before + [target[n]])[..|before|] == before;
    }
  }

  lemma RoundCovers<Key(!new)>(current: set<Key>, target: seq<seq<Key>>, next: set<Key>)
    requires [] !in target && Round(current, target, next)
    ensures Chosen(current, target) != [] ==> NumUncovered(next, target) < NumUncovered(current, target)
    ensures Chosen(current, target) == [] ==> Chosen(next, target) == [] && next == current * AllKeys(target)
  {
    var c := Chosen(current, target);
    if c != [] {
      var j := IndexOfChosen(current, target, 0);
      assert c[0] in c && target[j] in target;
      FewerUncovered(current, target, next, target[j]);
    } else {
      NothingChosen(current, target);
      FewerUncovered(current, target, next, []);
      NoGroupIsNew(next, target);
    }
  }

  lemma {:induction false} NothingChosen<Key>(current: set<Key>, target: seq<seq<Key>>)
    requires Chosen(current, target) == []
    ensures NumUncovered(current, target) == 0
  {
    if target != [] {
      var n := |target| - 1;
      NothingChosen(current, target[..n]);
    }
  }

  /** If no group is empty, nothing more is chosen from round `|target|` on, and the subscriptions stay as they
      are; if one is, there is no such round. */
  lemma {:induction false} RoundsSettleExactly<Key(!new)>(rounds: seq<set<Key>>, target: seq<seq<Key>>, n: nat)
    requires AreRounds(rounds, target) && |target| <= n < |rounds|
    ensures Chosen(rounds[n], target) == [] <==> [] !in target
    ensures [] !in target && 0 < n < |rounds| - 1 ==> rounds[n + 1] == rounds[n]
  {
    if [] in target {
      EmptyGroupIsAlwaysChosen(rounds[n], target);
    } else {
      RoundsProgress(rounds, target, n);
      NoGroupIsNew(rounds[n], target);
      if 0 < n < |rounds| - 1 {
        assert Round(rounds[n - 1], target, rounds[n]) && Round(rounds[n], target, rounds[n + 1]);
        RoundCovers(rounds[n], target, rounds[n + 1]);
        ChosenKeys(rounds[n - 1], target);
      }
    }
  }

  lemma {:induction false} RoundsProgress<Key(!new)>(rounds: seq<set<Key>>, target: seq<seq<Key>>, n: nat)
    requires AreRounds(rounds, target) && n < |rounds| && [] !in target
    ensures Chosen(rounds[n], target) == [] || NumUncovered(rounds[n], target) + n <= |target|
  {
    if n > 0 {
      RoundsProgress(rounds, target, n - 1);
      assert Round(rounds[n - 1], target, rounds[n]);
      RoundCovers(rounds[n - 1], target, rounds[n]);
    }
  }
}
