/** Listeners for keys with a given prefix (chitchat/src/listener.rs), and the iteration over the keys of a node
that have one (`iter_prefix` of chitchat/src/state.rs). Both walk a range of a sorted map. */
module Listeners {
  import opened ChitchatTypes
  import opened Lexicographic

  // ----- iterating over a prefix -----

  ghost predicate Sorted(keys: seq<Text>) {
    forall i, j :: 0 <= i < j < |keys| ==> Before(keys[i], keys[j])
  }

  function Filter(keys: seq<Text>, p: Text -> bool): seq<Text> {
    if keys == [] then [] else (if p(keys[0]) then [keys[0]] else []) + Filter(keys[1..], p)
  }

  function TakeWhile(keys: seq<Text>, p: Text -> bool): seq<Text> {
    if keys == [] || !p(keys[0]) then [] else [keys[0]] + TakeWhile(keys[1..], p)
  }

  /** `range((Included(from), Unbounded))` of the sorted keys. */
  function RangeFrom(keys: seq<Text>, from: Text): seq<Text> {
    if keys == [] || AtMost(from, keys[0]) then keys else RangeFrom(keys[1..], from)
  }

  function IterPrefix(keys: seq<Text>, prefix: Text, isLive: Text -> bool): seq<Text> {
    Filter(TakeWhile(RangeFrom(keys, prefix), key => prefix <= key), isLive)
  }

  lemma {:induction false} NothingPasses(keys: seq<Text>, p: Text -> bool)
    requires forall i :: 0 <= i < |keys| ==> !p(keys[i])
    ensures Filter(keys, p) == []
  {
    if keys != [] {
      NothingPasses(keys[1..], p);
    }
  }

  /** Once the range has begun, the keys with the prefix come first. */
  lemma {:induction false} WalkIsScan(keys: seq<Text>, prefix: Text, isLive: Text -> bool)
    requires Sorted(keys) && (keys != [] ==> AtMost(prefix, keys[0]))
    ensures Filter(TakeWhile(keys, key => prefix <= key), isLive) == Filter(keys, key => prefix <= key && isLive(key))
  {
    var starts, both := (key: Text) => prefix <= key, (key: Text) => prefix <= key && isLive(key);
    if keys != [] {
      if prefix <= keys[0] {
        if |keys| > 1 {
          assert Before(keys[0], keys[1]);
          AtMostIsTransitive(prefix, keys[0], keys[1]);
        }
        WalkIsScan(keys[1..], prefix, isLive);
        assert TakeWhile(keys, starts) == [keys[0]] + TakeWhile(keys[1..], starts);
        assert TakeWhile(keys, starts)[1..] == TakeWhile(keys[1..], starts);
      } else {
        forall i | 0 <= i < |keys| ensures !both(keys[i]) {
          if i > 0 && prefix <= keys[i] {
            assert Before(keys[0], keys[i]);
            PrefixesAreContiguous(prefix, keys[0], keys[i]);
          }
        }
        NothingPasses(keys, both);
      }
    }
  }

  /** `iter_prefix` yields exactly the live keys that begin with the prefix, in order. */
  lemma {:induction false} IterPrefixIsScan(keys: seq<Text>, prefix: Text, isLive: Text -> bool)
    requires Sorted(keys)
    ensures IterPrefix(keys, prefix, isLive) == Filter(keys, key => prefix <= key && isLive(key))
  {
    if keys != [] && !AtMost(prefix, keys[0]) {
      IterPrefixIsScan(keys[1..], prefix, isLive);
      if prefix <= keys[0] {
        PrefixIsAtMost(prefix, keys[0]);
      }
    } else {
      WalkIsScan(keys, prefix, isLive);
    }
  }

  lemma {:induction false} FilterExactly(keys: seq<Text>, p: Text -> bool)
    requires Sorted(keys)
    ensures forall k :: k in Filter(keys, p) <==> k in keys && p(k)
    ensures Sorted(Filter(keys, p))
  {
    if keys != [] {
      FilterExactly(keys[1..], p);
      var rest := Filter(keys[1..], p);
      forall i | 0 <= i < |rest| ensures Before(keys[0], rest[i]) {
        assert rest[i] in keys[1..];
      }
    }
  }

  /** It yields each of them once, in order. */
  lemma IterPrefixExactly(keys: seq<Text>, prefix: Text, isLive: Text -> bool)
    requires Sorted(keys)
    ensures Sorted(IterPrefix(keys, prefix, isLive))
    ensures forall k :: k in IterPrefix(keys, prefix, isLive) <==> k in keys && prefix <= k && isLive(k)
  {
    IterPrefixIsScan(keys, prefix, isLive);
    FilterExactly(keys, key => prefix <= key && isLive(key));
  }

  // ----- listeners -----

  /** `str::is_char_boundary(1)`, for a string that is not empty. */
  predicate IsBoundary(key: Text)
    requires key != []
  {
    |key| == 1 || !(0x80 <= key[1] < 0xC0)
  }

  type Call = (nat, Text)

  /** The calls due for a change of `key`: every listener whose prefix is one of `prefixes` and begins the key, with
      the rest of the key. */
  function DueAmong(listeners: map<Text, set<nat>>, prefixes: set<Text>, key: Text): set<Call> {
    set p, id | p in listeners && p in prefixes && p <= key && id in listeners[p] :: (id, key[|p|..])
  }

  function Due(listeners: map<Text, set<nat>>, key: Text): set<Call> { DueAmong(listeners, listeners.Keys, key) }

  ghost predicate Once(calls: seq<Call>, due: set<Call>) {
    && (forall c :: c in calls <==> c in due)
    && (forall i, j :: 0 <= i < j < |calls| ==> calls[i] != calls[j])
  }

  lemma OnceMore(calls: seq<Call>, due: set<Call>, more: seq<Call>, also: set<Call>)
    requires Once(calls, due) && Once(more, also) && due !! also
    ensures Once(calls + more, due + also)
  {
    forall i, j | 0 <= i < j < |calls + more| ensures (calls + more)[i] != (calls + more)[j] {
      if i < |calls| <= j {
        assert calls[i] in due && more[j - |calls|] in also;
      }
    }
  }

  /** Calls `ids` one by one. */
  method CallAll(ids: set<nat>, rest: Text) returns (calls: seq<Call>)
    ensures Once(calls, set id | id in ids :: (id, rest))
  {
    calls := [];
    var pending := ids;
    while pending != {}
      invariant pending <= ids
      invariant Once(calls, set id | id in ids - pending :: (id, rest))
      decreases pending
    {
      var id :| id in pending;
      OnceMore(calls, set i | i in ids - pending :: (i, rest), [(id, rest)], {(id, rest)});
      pending := pending - {id};
      assert (set i | i in ids - pending :: (i, rest))
             == (set i | i in ids - pending - {id} :: (i, rest)) + {(id, rest)};
      calls := calls + [(id, rest)];
    }
    assert ids - {} == ids;
  }

  lemma EmptyPrefix(listeners: map<Text, set<nat>>, key: Text)
    ensures DueAmong(listeners, {[]}, key) ==
            if [] in listeners then set id | id in listeners[[]] :: (id, key) else {}
    ensures key == [] ==> Due(listeners, key) == DueAmong(listeners, {[]}, key)
  {
    assert key[0..] == key;
  }

  ghost predicate Unique(listeners: map<Text, set<nat>>) {
    forall p, q, id :: p in listeners && q in listeners && id in listeners[p] && id in listeners[q] ==> p == q
  }

  lemma OnePrefixMore(listeners: map<Text, set<nat>>, done: set<Text>, p: Text, key: Text)
    requires Unique(listeners) && p in listeners && p !in done
    ensures var also := if p <= key then set id | id in listeners[p] :: (id, key[|p|..]) else {};
            && DueAmong(listeners, done + {p}, key) == DueAmong(listeners, done, key) + also
            && DueAmong(listeners, done, key) !! also
  {
  }

  /** Whatever begins the key lies between its first character and itself. */
  lemma RangeIsEnough(listeners: map<Text, set<nat>>, range: set<Text>, key: Text)
    requires key != [] && range == set p | p in listeners && AtMost(key[..1], p) && AtMost(p, key)
    ensures DueAmong(listeners, {[]} + range, key) == Due(listeners, key)
  {
    forall p | p in listeners && p <= key ensures p in {[]} + range {
      PrefixIsAtMost(p, key);
      if p != [] {
        assert key[..1] == p[..1];
        PrefixIsAtMost(key[..1], p);
      }
    }
  }

  lemma NotEmpty(key: Text, p: Text)
    requires key != [] && AtMost(key[..1], p)
    ensures p != []
  {
  }

  class InnerListeners {
    var listeners: map<Text, set<nat>>
    var listenerIdx: nat

    /** No identifier is used twice. */
    ghost predicate Valid()
      reads this
    {
      && (forall p, id :: p in listeners && id in listeners[p] ==> id < listenerIdx)
      && Unique(listeners)
    }

    constructor ()
      ensures Valid() && listeners == map[]
    {
      listeners, listenerIdx := map[], 0;
    }

    /** The new listener is called for the keys with its prefix, and nobody else is affected. */
    method Subscribe(prefix: Text) returns (id: nat)
      requires Valid()
      modifies this
      ensures Valid()
      ensures forall key :: Due(listeners, key) ==
                            Due(old(listeners), key) + if prefix <= key then {(id, key[|prefix|..])} else {}
      ensures forall key, rest :: (id, rest) !in Due(old(listeners), key)
    {
      id := listenerIdx;
      listenerIdx := listenerIdx + 1;
      ghost var before := listeners;
      if prefix in listeners {
        listeners := listeners[prefix := listeners[prefix] + {id}];
      } else {
        listeners := listeners[prefix := {id}];
      }
      assert forall p :: p in before ==> id !in before[p];
      forall p, i | p in listeners && i in listeners[p]
        ensures (i == id && p == prefix) || (p in before && i in before[p])
      {
      }
    }

    /** A handle that is dropped removes its listener and no other. */
    method Remove(prefix: Text, id: nat)
      requires Valid()
      modifies this
      ensures Valid()
      ensures forall key :: Due(listeners, key) == set c | c in Due(old(listeners), key)
                              && !(c.0 == id && prefix in old(listeners) && id in old(listeners)[prefix])
    {
      if prefix in listeners {
        listeners := listeners[prefix := listeners[prefix] - {id}];
      }
    }

    /** `trigger_event`: every listener due is called exactly once, unless the first character of the key is not a
        single byte. Then the slice of one byte panics, after the listeners for all keys have been called. */
    method TriggerEvent(key: Text) returns (calls: seq<Call>, panics: bool)
      requires Valid()
      ensures panics <==> key != [] && !IsBoundary(key)
      ensures (forall i :: 0 <= i < |key| ==> key[i] < 0x80) ==> !panics
      ensures |key| >= 2 && 0xC0 <= key[0] && 0x80 <= key[1] < 0xC0 ==> panics
      ensures Once(calls, if panics then DueAmong(listeners, {[]}, key) else Due(listeners, key))
    {
      calls := [];
      if [] in listeners {
        calls := CallAll(listeners[[]], key);
      }
      EmptyPrefix(listeners, key);
      if key == [] {
        return calls, false;
      }
      if !IsBoundary(key) {
        return calls, true;
      }
      var range := set p | p in listeners && AtMost(key[..1], p) && AtMost(p, key);
      var pending := range;
      ghost var done := {[]};
      while pending != {}
        invariant pending <= range && done == {[]} + (range - pending)
        invariant Once(calls, DueAmong(listeners, done, key))
        decreases pending
      {
        var p :| p in pending;
        pending := pending - {p};
        NotEmpty(key, p);
        OnePrefixMore(listeners, done, p, key);
        if p <= key {
          var more := CallAll(listeners[p], key[|p|..]);
          OnceMore(calls, DueAmong(listeners, done, key), more, set id | id in listeners[p] :: (id, key[|p|..]));
          calls := calls + more;
        }
        done := done + {p};
      }
      assert done == {[]} + range;
      RangeIsEnough(listeners, range, key);
      return calls, false;
    }
  }
}
