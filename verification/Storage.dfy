/**
  The event store: a table that only grows, with a unique bundle id. The triggers that refuse
  UPDATE and DELETE are the absence of any other method that writes `rows`.
 */
module Storage {
  import opened Option
  import opened Bytes
  import opened Ledger

  class DB {
    var rows: seq<Event>

    constructor ()
      ensures rows == []
    {
      rows := [];
    }

    /** Appends the event, or fails and leaves the table alone: on a known id, or on a storage fault. */
    method Insert(e: Event, fault: bool) returns (ok: bool)
      modifies this
      ensures ok <==> !fault && !HasId(old(rows), e.bundleId)
      ensures rows == if ok then old(rows) + [e] else old(rows)
    {
      var clash := false;
      for i := 0 to |rows|
        invariant rows == old(rows)
        invariant clash <==> exists j :: 0 <= j < i && rows[j].bundleId == e.bundleId
      {
        clash := clash || rows[i].bundleId == e.bundleId;
      }
      ok := !fault && !clash;
      if ok {
        rows := rows + [e];
      }
    }

    /** The chain hash of the last event, or 64 zeros for an empty table. */
    method LatestChainHash(fault: bool) returns (h: Option<string>)
      ensures h == if fault then None else Some(Head(rows))
    {
      if fault {
        return None;
      }
      if |rows| == 0 {
        return Some(EncodeHex(seq(32, _ => '\0')));
      }
      return Some(rows[|rows| - 1].chainHash);
    }

    method Count() returns (n: nat)
      ensures n == |rows|
    {
      return |rows|;
    }
  }

  /** Whatever is inserted, and whichever insertions fail, ids stay unique. */
  lemma InsertKeepsIdsUnique(rows: seq<Event>, e: Event)
    requires UniqueIds(rows) && !HasId(rows, e.bundleId)
    ensures UniqueIds(rows + [e])
  {
    var all := rows + [e];
    forall i, j | 0 <= i < j < |all| ensures all[i].bundleId != all[j].bundleId {
      assert all[i] == rows[i];
    }
  }
}
