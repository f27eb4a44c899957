/** The item tables, updated row by row as the handlers do. */
module ItemStore {
  import opened Options
  import opened ItemLedger
  import Sets
  import Sums

  class Tables {
    var owners: map<int, int>
    var catalog: map<int, Item>
    var items: map<Key, EventItem>
    var parts: map<Part, int>

    function State(): Db
      reads this
    {
      Db(owners, catalog, items, parts)
    }

    constructor ()
      ensures State() == Db(map[], map[], map[], map[]) && Valid(State())
    {
      owners, catalog, items, parts := map[], map[], map[], map[];
    }

    method ReserveEventItem(user: int, k: Key, requested: int) returns (reply: Reply)
      requires Valid(State()) && IsI32(requested)
      modifies this
      ensures (State(), reply) == Reserve(old(State()), user, k, requested) && Valid(State())
    {
      ReserveKeeps(State(), user, k, requested);
      if requested < 0 {
        return Err(InvalidPayload);
      }
      if k !in items {
        return Err(ItemNotFound);
      }
      var row := items[k];
      var existing := OwnPart(State(), user, k);
      var newTotal := NewTotal(row.quantity, existing, requested);
      if newTotal < 0 || newTotal > row.max {
        return Err(InvalidQuantity);
      }
      parts := SetPart(parts, Part(user, k), requested);
      items := items[k := row.(quantity := newTotal)];
      reply := Ok(());
    }

    method AttachEventItem(creator: int, k: Key, max: int) returns (reply: Reply)
      requires Valid(State()) && IsI32(max)
      modifies this
      ensures (State(), reply) == Attach(old(State()), creator, k, max) && Valid(State())
    {
      AttachKeeps(State(), creator, k, max);
      if max <= 0 {
        return Err(InvalidPayload);
      }
      if k.event !in owners || k.item !in catalog {
        return Err(ItemNotFound);
      }
      if k in items {
        items := items[k := items[k].(max := max)];
      } else {
        items := items[k := EventItem(max, 0, Some(creator))];
      }
      reply := Ok(());
    }

    method DeleteEventItem(user: int, k: Key) returns (reply: Reply)
      requires Valid(State())
      modifies this
      ensures (State(), reply) == DeleteItem(old(State()), user, k) && Valid(State())
    {
      WithoutKeeps(State(), {k});
      ghost var without := Without(State(), {k});
      if k !in items || k.event !in owners {
        return Err(ItemNotFound);
      }
      if owners[k.event] != user && items[k].createdBy != Some(user) {
        return Err(Forbidden);
      }
      parts := map p | p in parts && p.key != k :: parts[p];
      items := items - {k};
      assert parts == without.parts;
      reply := Ok(());
    }

    /** Subtracts the user's reservation of each given item, in whatever order the rows come. */
    method ReleaseRows(user: int, reserved: set<Key>)
      requires forall k :: k in reserved ==> k in items && Part(user, k) in parts
      modifies this`items
      ensures items.Keys == old(items.Keys)
      ensures forall k :: k in items ==>
        items[k] == if k in reserved then Released(old(items)[k], parts[Part(user, k)]) else old(items)[k]
    {
      var pending := reserved;
      while pending != {}
        invariant pending <= reserved && items.Keys == old(items.Keys)
        invariant forall k :: k in items ==>
          items[k] == if k in reserved && k !in pending then Released(old(items)[k], parts[Part(user, k)]) else old(items)[k]
        decreases pending
      {
        ghost var some := Sets.Pick(pending);
        var k :| k in pending;
        items := items[k := Released(items[k], parts[Part(user, k)])];
        pending := pending - {k};
      }
    }

    /** The item half of declining: release every reservation for the event, then delete the rows. */
    method DeclineReservations(user: int, event: int)
      modifies this
      ensures State() == Decline(old(State()), user, event)
    {
      ghost var after := Decline(State(), user, event);
      ReleaseRows(user, set k | k in items && k.event == event && Part(user, k) in parts);
      assert items == after.items;
      parts := map p | p in parts && !(p.user == user && p.key.event == event) :: parts[p];
      assert parts == after.parts;
    }

    /** `COALESCE(SUM(quantity), 0)` over the contributions to one item. */
    method SumParts(k: Key) returns (total: int)
      ensures total == Contributed(parts, k)
    {
      total := 0;
      var rest := map p | p in parts && p.key == k :: parts[p];
      assert rest == PartsOf(parts, k);
      while rest != map[]
        invariant total + Sums.Sum(rest) == Contributed(parts, k)
        decreases |rest|
      {
        assert rest.Keys != {};
        ghost var some := Sets.Pick(rest.Keys);
        var p :| p in rest.Keys;
        Sums.SumSplit(rest, p);
        total := total + rest[p];
        rest := rest - {p};
      }
    }

    /** Recomputes the quantity of each affected item from the contributions that remain. */
    method RecomputeItems(affected: set<Key>)
      requires forall k :: k in affected ==> k in items
      modifies this`items
      ensures items.Keys == old(items.Keys)
      ensures forall k :: k in items ==>
        items[k] == if k in affected then old(items)[k].(quantity := Contributed(parts, k)) else old(items)[k]
    {
      var pending := affected;
      while pending != {}
        invariant pending <= affected && items.Keys == old(items.Keys)
        invariant forall k :: k in items ==>
          items[k] == if k in affected && k !in pending then old(items)[k].(quantity := Contributed(parts, k)) else old(items)[k]
        decreases pending
      {
        ghost var some := Sets.Pick(pending);
        var k :| k in pending;
        var total := SumParts(k);
        items := items[k := items[k].(quantity := total)];
        pending := pending - {k};
      }
    }

    /** The deleted rows take their contributions with them. */
    method DropRows(gone: set<Key>)
      modifies this
      ensures State() == Without(old(State()), gone)
    {
      items := items - gone;
      parts := map p | p in parts && p.key !in gone :: parts[p];
    }

    /** What the foreign keys do when the user row goes. */
    method ForgetUser(user: int)
      modifies this
      ensures State() == Forget(old(State()), user)
    {
      ghost var after := Forget(State(), user);
      items := map k | k in items :: if items[k].createdBy == Some(user) then items[k].(createdBy := None) else items[k];
      owners := map e | e in owners && owners[e] != user :: owners[e];
      assert items == after.items && owners == after.owners;
    }

    /** Forgets the contributions and recomputes every affected quantity from the rows that remain. */
    method ForgetContributions(user: int)
      modifies this
      ensures State() == Recomputed(old(State()), user)
    {
      ghost var after := Recomputed(State(), user);
      var affected := set k | k in items && Affected(State(), user, k);
      parts := PartsWithout(State(), user);
      RecomputeItems(affected);
      assert items == after.items;
    }

    /** The item half of deleting an account. */
    method DeleteAccountItems(user: int)
      modifies this
      ensures State() == DeleteAccount(old(State()), user)
    {
      var gone := Removed(State(), user);
      ForgetContributions(user);
      DropRows(gone);
      ForgetUser(user);
    }
  }
}
