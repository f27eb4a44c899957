/** What each operation on event items answers and changes, in the columns' own terms. */
module ItemEffects {
  import opened Options
  import opened ItemLedger

  /** All rows but the item row `k` are the same. */
  ghost predicate OnlyItem(db: Db, db': Db, k: Key) {
    && db'.owners == db.owners && db'.parts == db.parts
    && (forall j :: j != k ==> (j in db'.items <==> j in db.items))
    && (forall j :: j in db.items && j != k ==> db'.items[j] == db.items[j])
  }

  /** A refused reservation says why, and changes nothing. */
  lemma {:induction false} ReserveRefusals(db: Db, user: int, k: Key, requested: int)
    requires Valid(db) && IsI32(requested)
    ensures var (db', reply) := Reserve(db, user, k, requested);
            && (reply == Err(InvalidPayload) <==> requested < 0)
            && (reply == Err(ItemNotFound) <==> 0 <= requested && k !in db.items)
            && (reply == Err(InvalidQuantity) <==>
                  (0 <= requested && k in db.items &&
                   db.items[k].max < Contributed(db.parts, k) - OwnPart(db, user, k) + requested))
            && (reply.Err? ==> db' == db)
  {
    ReserveAccepts(db, user, k, requested);
  }

  /** The contributions are `before` but for `p`, which is `quantity`, or absent if that is zero. */
  ghost predicate OnlyPart(before: map<Part, int>, after: map<Part, int>, p: Part, quantity: int) {
    && (p in after <==> quantity != 0) && (p in after ==> after[p] == quantity)
    && (forall q :: q != p ==> (q in after <==> q in before))
    && (forall q :: q in before && q != p ==> after[q] == before[q])
  }

  lemma {:induction false} SetPartMeans(parts: map<Part, int>, p: Part, quantity: int)
    ensures OnlyPart(parts, SetPart(parts, p, quantity), p, quantity)
  {
  }

  /** An accepted reservation becomes the user's contribution, moves the quantity by the difference, and
      leaves every other row alone. */
  lemma {:induction false} ReserveMeans(db: Db, user: int, k: Key, requested: int)
    requires Valid(db) && IsI32(requested) && Reserve(db, user, k, requested).1.Ok?
    ensures var db' := Reserve(db, user, k, requested).0;
            && k in db.items && OnlyPart(db.parts, db'.parts, Part(user, k), requested)
            && db'.items == db.items[k := db.items[k].(quantity := db.items[k].quantity + requested - OwnPart(db, user, k))]
            && db'.owners == db.owners && db'.catalog == db.catalog
  {
    ReserveTotal(db, user, k, requested);
    ReservedMeans(db, user, k, requested, db.items[k].quantity - OwnPart(db, user, k) + requested);
  }

  lemma {:induction false} ReservedMeans(db: Db, user: int, k: Key, requested: int, total: int)
    requires k in db.items && NewTotal(db.items[k].quantity, OwnPart(db, user, k), requested) == total
    ensures var db' := Reserved(db, user, k, requested);
            && OnlyPart(db.parts, db'.parts, Part(user, k), requested)
            && db'.items == db.items[k := db.items[k].(quantity := total)]
            && db'.owners == db.owners && db'.catalog == db.catalog
  {
    SetPartMeans(db.parts, Part(user, k), requested);
  }

  /** Attaching writes the cap. A new row starts with nothing reserved and the organiser as its creator;
      an attached item keeps both. */
  lemma {:induction false} AttachMeans(db: Db, creator: int, k: Key, max: int)
    requires Valid(db)
    ensures var (db', reply) := Attach(db, creator, k, max);
            && (reply.Ok? <==> 1 <= max && k.event in db.owners && k.item in db.catalog)
            && (reply.Err? ==> db' == db && reply == Err(if max <= 0 then InvalidPayload else ItemNotFound))
            && (reply.Ok? ==>
                  && OnlyItem(db, db', k) && db'.catalog == db.catalog && k in db'.items && db'.items[k].max == max
                  && db'.items[k].quantity == Contributed(db.parts, k)
                  && db'.items[k].createdBy == if k in db.items then db.items[k].createdBy else Some(creator))
  {
    if k in db.items { assert ItemOk(db, k); } else { NoParts(db, k); }
  }

  /** Only the organiser adds a need. An item of that name and kind that is attached already gets the
      quantity on top of its cap, or the request fails when that leaves the 32-bit range; otherwise a new
      catalogue item is attached, with the requester as its creator. */
  lemma {:induction false} CustomMeans(db: Db, creator: int, event: int, name: string, kind: Kind, max: int,
                                       existing: Option<int>, newId: int)
    requires Valid(db) && Admissible(db, CustomOp(creator, event, name, kind, max, existing, newId))
    requires event in db.owners
    ensures var (db', reply) := Custom(db, creator, event, name, kind, max, existing, newId);
            && (reply == Err(InvalidPayload) <==> name == "" || max <= 0)
            && (reply == Err(Forbidden) <==> name != "" && 1 <= max && kind == Need && db.owners[event] != creator)
            && (reply == Err(OutOfRange) <==>
                  (name != "" && 1 <= max && (kind == Bring || db.owners[event] == creator) && existing.Some? &&
                   0x7FFF_FFFF < db.items[Key(event, existing.value)].max + max))
            && reply != Err(ItemNotFound) && (reply.Err? ==> db' == db)
            && (reply.Ok? && existing.Some? ==>
                  var k := Key(event, existing.value);
                  && OnlyItem(db, db', k) && db'.catalog == db.catalog
                  && k in db'.items && db'.items[k] == db.items[k].(max := db.items[k].max + max))
            && (reply.Ok? && existing.None? ==>
                  && OnlyItem(db, db', Key(event, newId)) && db'.catalog == db.catalog[newId := Item(name, kind)]
                  && Key(event, newId) in db'.items && db'.items[Key(event, newId)] == EventItem(max, 0, Some(creator)))
  {
  }

  /** The organiser and the item's creator, and nobody else, may delete an item; its contributions go
      with it, and nothing else does. */
  lemma {:induction false} DeleteItemMeans(db: Db, user: int, k: Key)
    requires Valid(db)
    ensures var (db', reply) := DeleteItem(db, user, k);
            && (reply == Err(ItemNotFound) <==> k !in db.items)
            && (reply.Ok? <==> k in db.items && (db.owners[k.event] == user || db.items[k].createdBy == Some(user)))
            && (reply.Err? && k in db.items ==> reply == Err(Forbidden))
            && (reply.Err? ==> db' == db)
            && (reply.Ok? ==>
                  && db'.items == db.items - {k} && (db'.owners, db'.catalog) == (db.owners, db.catalog)
                  && (forall p :: p in db'.parts <==> p in db.parts && p.key != k)
                  && (forall p :: p in db'.parts ==> db'.parts[p] == db.parts[p]))
  {
    if k in db.items { assert ItemOk(db, k); }
  }
}
