/** The routing table of bitmasks (node/src/bitmask): the first row that matches decides. */
module Bitmasks {
  import opened ChitchatTypes

  /** Bits as the set of the positions that are 1; `&` is intersection and the default value is empty. */
  type Bits = set<nat>

  datatype Bitmask = Bitmask(maskBits: Bits, meaningfulMaskBits: Bits)
  {
    predicate IsMatch(address: Bits) {
      address * meaningfulMaskBits == maskBits * meaningfulMaskBits
    }
  }

  /** A mask matches when the address has its bits wherever they are meaningful. */
  lemma MatchesExactly(mask: Bitmask, address: Bits)
    ensures mask.IsMatch(address) <==>
            forall i :: i in mask.meaningfulMaskBits ==> (i in address <==> i in mask.maskBits)
  {
    if forall i :: i in mask.meaningfulMaskBits ==> (i in address <==> i in mask.maskBits) {
      assert address * mask.meaningfulMaskBits == mask.maskBits * mask.meaningfulMaskBits;
    }
    if mask.IsMatch(address) {
      forall i | i in mask.meaningfulMaskBits ensures i in address <==> i in mask.maskBits {
        assert i in address * mask.meaningfulMaskBits <==> i in mask.maskBits * mask.meaningfulMaskBits;
      }
    }
  }

  const MATCH_ALL := Bitmask({}, {})

  datatype Row<Target> = Row(mask: Bitmask, target: Target)
  datatype Result<T> = Ok(value: T) | Err

  /** `None` is where the source panics. */
  function FirstMatch<Target>(rows: seq<Row<Target>>, bits: Bits): Option<Target> {
    if rows == [] then None
    else if rows[0].mask.IsMatch(bits) then Some(rows[0].target)
    else FirstMatch(rows[1..], bits)
  }

  function Inserted<Target>(rows: seq<Row<Target>>, i: nat, row: Row<Target>): seq<Row<Target>>
    requires i <= |rows|
  {
    rows[..i] + [row] + rows[i..]
  }

  ghost predicate NoneMatches<Target>(rows: seq<Row<Target>>, bits: Bits) {
    forall j :: 0 <= j < |rows| ==> !rows[j].mask.IsMatch(bits)
  }

  /** There is always a last row for all addresses. */
  ghost predicate HasDefault<Target>(rows: seq<Row<Target>>, target: Target) {
    |rows| >= 1 && rows[|rows| - 1] == Row(MATCH_ALL, target)
  }

  lemma {:induction false} FirstMatchOfConcat<Target>(a: seq<Row<Target>>, b: seq<Row<Target>>, bits: Bits)
    ensures FirstMatch(a + b, bits) == if NoneMatches(a, bits) then FirstMatch(b, bits) else FirstMatch(a, bits)
    ensures FirstMatch(a, bits).None? <==> NoneMatches(a, bits)
  {
    if a == [] {
      assert a + b == b;
    } else {
      FirstMatchOfConcat(a[1..], b, bits);
      assert (a + b)[1..] == a[1..] + b;
      if !a[0].mask.IsMatch(bits) {
        assert NoneMatches(a, bits) <==> NoneMatches(a[1..], bits) by {
          assert NoneMatches(a[1..], bits) ==> forall j :: 0 < j < |a| ==> a[j] == a[1..][j - 1];
        }
      }
    }
  }

  /** A new row changes the route exactly for the addresses that match it and no row above it. */
  lemma InsertIsLocal<Target>(rows: seq<Row<Target>>, i: nat, row: Row<Target>, bits: Bits)
    requires i <= |rows|
    ensures FirstMatch(Inserted(rows, i, row), bits) ==
            if row.mask.IsMatch(bits) && NoneMatches(rows[..i], bits) then Some(row.target) else FirstMatch(rows, bits)
  {
    assert Inserted(rows, i, row) == rows[..i] + ([row] + rows[i..]);
    assert rows == rows[..i] + rows[i..];
    FirstMatchOfConcat(rows[..i], [row] + rows[i..], bits);
    FirstMatchOfConcat(rows[..i], rows[i..], bits);
    assert ([row] + rows[i..])[1..] == rows[i..];
  }

  lemma DefaultMatches<Target>(rows: seq<Row<Target>>, target: Target, bits: Bits)
    requires HasDefault(rows, target)
    ensures FirstMatch(rows, bits).Some?
  {
    var n := |rows| - 1;
    assert rows == rows[..n] + [rows[n]];
    FirstMatchOfConcat(rows[..n], [rows[n]], bits);
  }

  class BitmasksTable<Target(==)> {
    var masks: seq<Row<Target>>
    ghost const default: Target

    ghost predicate Valid()
      reads this
    {
      HasDefault(masks, default)
    }

    constructor (default: Target)
      ensures Valid() && masks == [Row(MATCH_ALL, default)] && this.default == default
    {
      masks := [Row(MATCH_ALL, default)];
      this.default := default;
    }

    method FindMatch(bits: Bits) returns (target: Option<Target>)
      requires Valid()
      ensures target.Some? && target == FirstMatch(masks, bits)
    {
      DefaultMatches(masks, default, bits);
      for i := 0 to |masks|
        invariant FirstMatch(masks, bits) == FirstMatch(masks[i..], bits)
      {
        if masks[i].mask.IsMatch(bits) {
          return Some(masks[i].target);
        }
        assert masks[i..][1..] == masks[i + 1..];
      }
      return None;
    }

    method InsertAbove(rowIndex: nat, mask: Bitmask, target: Target) returns (r: Result<()>)
      requires Valid()
      modifies this
      ensures Valid()
      ensures r.Ok? <==> rowIndex < |old(masks)|
      ensures masks == if r.Ok? then Inserted(old(masks), rowIndex, Row(mask, target)) else old(masks)
    {
      if rowIndex == |masks| {
        return Err;
      }
      if rowIndex > |masks| {
        return Err;
      }
      masks := masks[..rowIndex] + [Row(mask, target)] + masks[rowIndex..];
      return Ok(());
    }

    /** Removing undoes inserting. */
    method Remove(rowIndex: nat) returns (r: Result<Row<Target>>)
      requires Valid()
      modifies this
      ensures Valid()
      ensures r.Ok? <==> rowIndex + 1 < |old(masks)|
      ensures r.Ok? ==> rowIndex <= |masks| && old(masks) == Inserted(masks, rowIndex, r.value)
      ensures r.Err? ==> masks == old(masks)
    {
      if rowIndex + 1 == |masks| {
        return Err;
      }
      if rowIndex + 1 > |masks| {
        return Err;
      }
      var row := masks[rowIndex];
      masks := masks[..rowIndex] + masks[rowIndex + 1..];
      return Ok(row);
    }
  }

  // ----- every run of insertions and removals -----

  datatype Edit<Target> = InsertAbove(at: nat, row: Row<Target>) | Remove(at: nat)

  function Edited<Target>(rows: seq<Row<Target>>, e: Edit<Target>): seq<Row<Target>> {
    match e
    case InsertAbove(i, row) => if i < |rows| then Inserted(rows, i, row) else rows
    case Remove(i) => if i + 1 < |rows| then rows[..i] + rows[i + 1..] else rows
  }

  function AfterEdits<Target>(start: Target, edits: seq<Edit<Target>>): seq<Row<Target>> {
    if edits == [] then [Row(MATCH_ALL, start)]
    else Edited(AfterEdits(start, edits[..|edits| - 1]), edits[|edits| - 1])
  }

  /** Whatever is inserted and removed, every address has a route. */
  lemma {:induction false} EveryAddressHasARoute<Target>(start: Target, edits: seq<Edit<Target>>, bits: Bits)
    ensures HasDefault(AfterEdits(start, edits), start) && FirstMatch(AfterEdits(start, edits), bits).Some?
  {
    if edits != [] {
      EveryAddressHasARoute(start, edits[..|edits| - 1], bits);
    }
    DefaultMatches(AfterEdits(start, edits), start, bits);
  }

  /** Removing a row restores every route it took. */
  lemma RemovingUndoesInserting<Target>(rows: seq<Row<Target>>, i: nat, row: Row<Target>)
    requires i < |rows|
    ensures Edited(Edited(rows, InsertAbove(i, row)), Remove(i)) == rows
  {
    var more := Inserted(rows, i, row);
    assert more[..i] == rows[..i] && more[i + 1..] == rows[i..];
  }
}
