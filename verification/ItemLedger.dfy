/** Items of an event and who brings how much: the running quantity against the contributions. */
module ItemLedger {
  import opened Options
  import Sums

  const I32_MAX: int := 0x7FFF_FFFF

  /** The result of a 32-bit addition or subtraction in a release build. */
  function Wrap32(x: int): int {
    (x + 0x8000_0000) % 0x1_0000_0000 - 0x8000_0000
  }

  predicate IsI32(x: int) { -0x8000_0000 <= x <= I32_MAX }

  datatype Kind = Need | Bring

  datatype Key = Key(event: int, item: int)

  datatype EventItem = EventItem(max: int, quantity: int, createdBy: Option<int>)

  datatype Part = Part(user: int, key: Key)

  datatype Item = Item(name: string, kind: Kind)

  /** `owners` are the events with their owners, `catalog` the items with lower-case names. */
  datatype Db = Db(
    owners: map<int, int>, catalog: map<int, Item>, items: map<Key, EventItem>, parts: map<Part, int>)

  datatype Error = InvalidPayload | ItemNotFound | InvalidQuantity | Forbidden | OutOfRange

  type Reply = Result<(), Error>

  // ----- The redundant quantity -----

  /** The contributions to one event item. */
  ghost function PartsOf(parts: map<Part, int>, k: Key): map<Part, int> {
    map p | p in parts && p.key == k :: parts[p]
  }

  ghost function Contributed(parts: map<Part, int>, k: Key): int {
    Sums.Sum(PartsOf(parts, k))
  }

  function OwnPart(db: Db, user: int, k: Key): int {
    if Part(user, k) in db.parts then db.parts[Part(user, k)] else 0
  }

  /** The quantity is the sum of the contributions. */
  ghost predicate ItemOk(db: Db, k: Key)
    requires k in db.items
  {
    && db.items[k].quantity == Contributed(db.parts, k) <= I32_MAX
    && 1 <= db.items[k].max <= I32_MAX && k.event in db.owners && k.item in db.catalog
  }

  /** A contribution is positive and belongs to an attached item. */
  predicate PartOk(db: Db, p: Part)
    requires p in db.parts
  {
    1 <= db.parts[p] <= I32_MAX && p.key in db.items
  }

  ghost predicate Valid(db: Db) {
    (forall k :: k in db.items ==> ItemOk(db, k)) && (forall p :: p in db.parts ==> PartOk(db, p))
  }

  lemma {:induction false} QuantityBounds(db: Db, k: Key, user: int)
    requires Valid(db) && k in db.items
    ensures 0 <= OwnPart(db, user, k) <= db.items[k].quantity
  {
    var parts := PartsOf(db.parts, k);
    assert ItemOk(db, k) && forall p :: p in parts ==> p in db.parts && PartOk(db, p);
    Sums.SumNonNegative(parts);
    assert Part(user, k) in db.parts ==> Part(user, k) in parts;
  }

  // ----- Single-row changes -----

  function SetPart(parts: map<Part, int>, p: Part, quantity: int): map<Part, int> {
    if quantity == 0 then parts - {p} else parts[p := quantity]
  }

  function ValueOr0(parts: map<Part, int>, p: Part): int {
    if p in parts then parts[p] else 0
  }

  /** Setting one contribution moves the sum of its item by the difference, and no other sum. */
  lemma {:induction false} SetPartMovesSum(parts: map<Part, int>, p: Part, quantity: int, k: Key)
    ensures Contributed(SetPart(parts, p, quantity), k) ==
            Contributed(parts, k) + if k == p.key then quantity - ValueOr0(parts, p) else 0
  {
    var before, after := PartsOf(parts, k), PartsOf(SetPart(parts, p, quantity), k);
    if k != p.key {
      assert after == before;
    } else if quantity == 0 {
      assert after == before - {p};
      if p in parts { Sums.SumSplit(before, p); } else { assert after == before; }
    } else {
      assert after == before[p := quantity];
      Sums.SumUpdate(before, p, quantity);
    }
  }

  // ----- The handlers, each as one transaction -----

  /** `current_quantity - existing_user_qty + requested` in 32 bits. */
  function NewTotal(current: int, existing: int, requested: int): int {
    Wrap32(Wrap32(current - existing) + requested)
  }

  /** The rows once `user` brings `requested` of `k`. */
  function Reserved(db: Db, user: int, k: Key, requested: int): Db
    requires k in db.items
  {
    var row := db.items[k];
    db.(parts := SetPart(db.parts, Part(user, k), requested),
        items := db.items[k := row.(quantity := NewTotal(row.quantity, OwnPart(db, user, k), requested))])
  }

  function Reserve(db: Db, user: int, k: Key, requested: int): (Db, Reply) {
    if requested < 0 then (db, Err(InvalidPayload))
    else if k !in db.items then (db, Err(ItemNotFound))
    else
      var total := NewTotal(db.items[k].quantity, OwnPart(db, user, k), requested);
      if total < 0 || total > db.items[k].max then (db, Err(InvalidQuantity))
      else (Reserved(db, user, k, requested), Ok(()))
  }

  /** The organiser attaches a catalogue item, or changes the cap of an attached one. */
  function Attach(db: Db, creator: int, k: Key, max: int): (Db, Reply) {
    if max <= 0 then (db, Err(InvalidPayload))
    else if k.event !in db.owners || k.item !in db.catalog then (db, Err(ItemNotFound))
    else
      var row := if k in db.items then db.items[k].(max := max) else EventItem(max, 0, Some(creator));
      (db.(items := db.items[k := row]), Ok(()))
  }

  /** A custom item raises the cap of an attached item of the same name and kind, which the lookup
      found as `existing`, or is created. */
  function Custom(db: Db, creator: int, event: int, name: string, kind: Kind, max: int,
                  existing: Option<int>, newId: int): (Db, Reply)
  {
    if name == "" || max <= 0 then (db, Err(InvalidPayload))
    else if event !in db.owners then (db, Err(ItemNotFound))
    else if kind == Need && db.owners[event] != creator then (db, Err(Forbidden))
    else match existing
      case Some(item) =>
        var k := Key(event, item);
        if k !in db.items then (db, Err(ItemNotFound))
        else if db.items[k].max + max > I32_MAX then (db, Err(OutOfRange))
        else (db.(items := db.items[k := db.items[k].(max := db.items[k].max + max)]), Ok(()))
      case None =>
        (db.(catalog := db.catalog[newId := Item(name, kind)],
             items := db.items[Key(event, newId) := EventItem(max, 0, Some(creator))]), Ok(()))
  }

  /** Event-item rows go with their contributions. */
  function Without(db: Db, ks: set<Key>): Db {
    db.(items := db.items - ks, parts := map p | p in db.parts && p.key !in ks :: db.parts[p])
  }

  function DeleteItem(db: Db, user: int, k: Key): (Db, Reply) {
    if k !in db.items || k.event !in db.owners then (db, Err(ItemNotFound))
    else if db.owners[k.event] != user && db.items[k].createdBy != Some(user) then (db, Err(Forbidden))
    else (Without(db, {k}), Ok(()))
  }

  function Greatest(a: int, b: int): int { if a >= b then a else b }

  /** A row once one contribution is given back. */
  function Released(row: EventItem, quantity: int): EventItem {
    row.(quantity := Greatest(row.quantity - quantity, 0))
  }

  /** Declining subtracts each of the user's contributions to the event, never below zero. */
  function Decline(db: Db, user: int, event: int): Db {
    db.(items := map k | k in db.items ::
          if k.event == event && Part(user, k) in db.parts
          then Released(db.items[k], db.parts[Part(user, k)])
          else db.items[k],
        parts := map p | p in db.parts && !(p.user == user && p.key.event == event) :: db.parts[p])
  }

  predicate Affected(db: Db, user: int, k: Key) {
    k in db.items && (db.items[k].createdBy == Some(user) || Part(user, k) in db.parts)
  }

  function PartsWithout(db: Db, user: int): map<Part, int> {
    map p | p in db.parts && p.user != user :: db.parts[p]
  }

  /** The items that disappear with their author, or with the event the user owned. */
  function Removed(db: Db, user: int): set<Key> {
    set k | k in db.items &&
      ((db.items[k].createdBy == Some(user) && k.item in db.catalog && db.catalog[k.item].kind == Bring) ||
       (k.event in db.owners && db.owners[k.event] == user))
  }

  /** Deleting an account recomputes the quantity of every affected item from what remains. */
  ghost function Recomputed(db: Db, user: int): Db {
    var parts := PartsWithout(db, user);
    db.(parts := parts, items := map k | k in db.items ::
           if Affected(db, user, k) then db.items[k].(quantity := Contributed(parts, k)) else db.items[k])
  }

  /** The foreign keys of a deleted user: created items stay without creator, owned events go. */
  function Forget(db: Db, user: int): Db {
    db.(items := map k | k in db.items ::
          if db.items[k].createdBy == Some(user) then db.items[k].(createdBy := None) else db.items[k],
        owners := map e | e in db.owners && db.owners[e] != user :: db.owners[e])
  }

  ghost function DeleteAccount(db: Db, user: int): Db {
    Forget(Without(Recomputed(db, user), Removed(db, user)), user)
  }

  // ----- What reserving means -----

  lemma {:induction false} WrapIsExact(x: int)
    requires IsI32(x)
    ensures Wrap32(x) == x
  {
  }

  lemma {:induction false} WrapIsNegative(x: int)
    requires I32_MAX < x <= 2 * I32_MAX
    ensures Wrap32(x) < 0
  {
  }

  /** The 32-bit total is accepted exactly when the true total is within the cap. */
  lemma {:induction false} TotalCheck(current: int, existing: int, requested: int, max: int)
    requires 0 <= existing <= current <= I32_MAX && 0 <= requested <= I32_MAX && max <= I32_MAX
    ensures var total := NewTotal(current, existing, requested);
            && (0 <= total <= max <==> current - existing + requested <= max)
            && (0 <= total <= max ==> total == current - existing + requested)
  {
    var others := current - existing;
    WrapIsExact(others);
    if others + requested <= I32_MAX { WrapIsExact(others + requested); } else { WrapIsNegative(others + requested); }
  }

  /** A reservation is accepted exactly when what the others bring plus the request stays within
      the cap, in spite of 32-bit wrap-around. */
  lemma {:induction false} ReserveAccepts(db: Db, user: int, k: Key, requested: int)
    requires Valid(db) && IsI32(requested)
    ensures Reserve(db, user, k, requested).1.Ok? <==>
            (0 <= requested && k in db.items &&
             Contributed(db.parts, k) - OwnPart(db, user, k) + requested <= db.items[k].max)
  {
    if 0 <= requested && k in db.items {
      QuantityBounds(db, k, user);
      TotalCheck(db.items[k].quantity, OwnPart(db, user, k), requested, db.items[k].max);
    }
  }

  lemma {:induction false} ReserveTotal(db: Db, user: int, k: Key, requested: int)
    requires Valid(db) && IsI32(requested) && Reserve(db, user, k, requested).1.Ok?
    ensures NewTotal(db.items[k].quantity, OwnPart(db, user, k), requested) ==
            db.items[k].quantity - OwnPart(db, user, k) + requested
  {
    QuantityBounds(db, k, user);
    TotalCheck(db.items[k].quantity, OwnPart(db, user, k), requested, db.items[k].max);
  }

  lemma {:induction false} ReserveKeeps(db: Db, user: int, k: Key, requested: int)
    requires Valid(db) && IsI32(requested)
    ensures Valid(Reserve(db, user, k, requested).0)
  {
    if Reserve(db, user, k, requested).1.Ok? {
      ReserveTotal(db, user, k, requested);
      var db' := Reserved(db, user, k, requested);
      forall j | j in db'.items ensures ItemOk(db', j) {
        SetPartMovesSum(db.parts, Part(user, k), requested, j);
        assert ItemOk(db, j);
      }
      forall p | p in db'.parts ensures PartOk(db', p) {
        assert p in db.parts ==> PartOk(db, p);
      }
    }
  }

  /** An accepted reservation makes the request the user's contribution, leaves everyone else's
      alone, and stays within the cap; a refused one changes nothing. */
  lemma {:induction false} ReserveEffect(db: Db, user: int, k: Key, requested: int)
    ensures var (db', reply) := Reserve(db, user, k, requested);
            && (reply.Ok? ==>
                  && OwnPart(db', user, k) == requested
                  && 0 <= db'.items[k].quantity <= db'.items[k].max
                  && (forall u, j :: (u, j) != (user, k) ==> OwnPart(db', u, j) == OwnPart(db, u, j))
                  && (forall j :: j != k ==> (j in db'.items <==> j in db.items) && (j in db.items ==> db'.items[j] == db.items[j])))
            && (reply.Err? ==> db' == db)
  {
  }

  // ----- The other operations -----

  lemma {:induction false} NoParts(db: Db, k: Key)
    requires Valid(db) && k !in db.items
    ensures Contributed(db.parts, k) == 0
  {
    assert forall p :: p in db.parts ==> PartOk(db, p);
    assert PartsOf(db.parts, k) == map[];
  }

  /** Writing one event-item row without touching contributions. */
  lemma {:induction false} PutItemKeeps(db: Db, db': Db, k: Key, row: EventItem)
    requires Valid(db) && db'.parts == db.parts && db'.items == db.items[k := row]
    requires db.owners.Keys <= db'.owners.Keys && db.catalog.Keys <= db'.catalog.Keys
    requires k.event in db'.owners && k.item in db'.catalog && 1 <= row.max <= I32_MAX
    requires row.quantity == if k in db.items then db.items[k].quantity else 0
    ensures Valid(db')
  {
    if k !in db.items { NoParts(db, k); } else { assert ItemOk(db, k); }
    forall j | j in db'.items ensures ItemOk(db', j) {
      assert j in db.items ==> ItemOk(db, j);
    }
    forall p | p in db'.parts ensures PartOk(db', p) { assert PartOk(db, p); }
  }

  lemma {:induction false} AttachKeeps(db: Db, creator: int, k: Key, max: int)
    requires Valid(db) && IsI32(max)
    ensures Valid(Attach(db, creator, k, max).0)
    ensures Attach(db, creator, k, max).0.parts == db.parts
  {
    if Attach(db, creator, k, max).1.Ok? {
      PutItemKeeps(db, Attach(db, creator, k, max).0, k, Attach(db, creator, k, max).0.items[k]);
    }
  }

  lemma {:induction false} CustomKeeps(db: Db, creator: int, event: int, name: string, kind: Kind, max: int, existing: Option<int>, newId: int)
    requires Valid(db) && IsI32(max) && newId !in db.catalog
    ensures Valid(Custom(db, creator, event, name, kind, max, existing, newId).0)
    ensures Custom(db, creator, event, name, kind, max, existing, newId).0.parts == db.parts
  {
    var (db', reply) := Custom(db, creator, event, name, kind, max, existing, newId);
    if reply.Ok? {
      if existing.Some? {
        var k := Key(event, existing.value);
        assert ItemOk(db, k);
        PutItemKeeps(db, db', k, db.items[k].(max := db.items[k].max + max));
      } else {
        assert Key(event, newId) in db.items ==> ItemOk(db, Key(event, newId));
        PutItemKeeps(db, db', Key(event, newId), EventItem(max, 0, Some(creator)));
      }
    }
  }

  lemma {:induction false} WithoutKeeps(db: Db, ks: set<Key>)
    requires Valid(db)
    ensures Valid(Without(db, ks))
  {
    var db' := Without(db, ks);
    forall k | k in db'.items ensures ItemOk(db', k) {
      assert PartsOf(db'.parts, k) == PartsOf(db.parts, k);
      assert ItemOk(db, k);
    }
    forall p | p in db'.parts ensures PartOk(db', p) { assert PartOk(db, p); }
  }

  /** Leaving out all of a user's contributions lowers each sum by the user's own part. */
  lemma {:induction false} DroppedPart(db: Db, parts: map<Part, int>, user: int, k: Key)
    requires Valid(db)
    requires forall p: Part :: p.key == k ==> (p in parts <==> p in db.parts && p.user != user) && (p in parts ==> parts[p] == db.parts[p])
    ensures Contributed(parts, k) == Contributed(db.parts, k) - OwnPart(db, user, k)
  {
    var p := Part(user, k);
    assert PartsOf(parts, k) == PartsOf(db.parts, k) - {p};
    if p in db.parts {
      Sums.SumSplit(PartsOf(db.parts, k), p);
    } else {
      assert PartsOf(parts, k) == PartsOf(db.parts, k);
    }
  }

  lemma {:induction false} DeclineQuantity(db: Db, user: int, event: int, k: Key)
    requires Valid(db) && k in db.items
    ensures var db' := Decline(db, user, event);
            && k in db'.items && ItemOk(db', k)
            && db'.items[k] == db.items[k].(quantity :=
                 db.items[k].quantity - if k.event == event then OwnPart(db, user, k) else 0)
  {
    var db' := Decline(db, user, event);
    QuantityBounds(db, k, user);
    assert ItemOk(db, k);
    if k.event == event {
      DroppedPart(db, db'.parts, user, k);
    } else {
      assert PartsOf(db'.parts, k) == PartsOf(db.parts, k);
    }
  }

  /** After a decline the user contributes nothing to the event, each quantity has dropped by
      exactly the user's part (so the clamp at zero never acts), and all else is unchanged. */
  lemma {:induction false} DeclineReleasesContributions(db: Db, user: int, event: int)
    requires Valid(db)
    ensures var db' := Decline(db, user, event);
            && Valid(db')
            && (forall u, k :: OwnPart(db', u, k) == if u == user && k.event == event then 0 else OwnPart(db, u, k))
            && db'.items.Keys == db.items.Keys
            && (forall k :: k in db.items ==>
                  db'.items[k] == db.items[k].(quantity :=
                    db.items[k].quantity - if k.event == event then OwnPart(db, user, k) else 0))
  {
    var db' := Decline(db, user, event);
    forall k | k in db.items
      ensures ItemOk(db', k)
      ensures db'.items[k] == db.items[k].(quantity :=
                db.items[k].quantity - if k.event == event then OwnPart(db, user, k) else 0)
    {
      DeclineQuantity(db, user, event, k);
    }
    forall p | p in db'.parts ensures PartOk(db', p) { assert PartOk(db, p); }
  }

  /** The recomputation at account deletion gives what subtracting the user's part would give. */
  lemma {:induction false} RecomputationAgrees(db: Db, user: int)
    requires Valid(db)
    ensures Valid(Recomputed(db, user))
    ensures Recomputed(db, user).items.Keys == db.items.Keys
    ensures forall k :: k in db.items ==>
              Recomputed(db, user).items[k] == db.items[k].(quantity := db.items[k].quantity - OwnPart(db, user, k))
  {
    var db' := Recomputed(db, user);
    forall k | k in db.items
      ensures db'.items[k] == db.items[k].(quantity := db.items[k].quantity - OwnPart(db, user, k))
      ensures ItemOk(db', k)
    {
      DroppedPart(db, db'.parts, user, k);
      QuantityBounds(db, k, user);
      assert ItemOk(db, k);
    }
    forall p | p in db'.parts ensures PartOk(db', p) { assert PartOk(db, p); }
  }

  /** Forgetting a creator and dropping events without items. */
  lemma {:induction false} ForgetKeeps(db: Db, user: int)
    requires Valid(db) && forall k :: k in db.items ==> db.owners[k.event] != user
    ensures Valid(Forget(db, user))
  {
    var db' := Forget(db, user);
    forall k | k in db'.items ensures ItemOk(db', k) { assert ItemOk(db, k); }
    forall p | p in db'.parts ensures PartOk(db', p) { assert PartOk(db, p); }
  }

  lemma {:induction false} DeleteAccountValid(db: Db, user: int)
    requires Valid(db)
    ensures Valid(DeleteAccount(db, user))
  {
    RecomputationAgrees(db, user);
    var db1 := Recomputed(db, user);
    WithoutKeeps(db1, Removed(db, user));
    var db2 := Without(db1, Removed(db, user));
    forall k | k in db2.items ensures k.event in db2.owners && db2.owners[k.event] != user {
      assert ItemOk(db2, k);
    }
    ForgetKeeps(db2, user);
  }

  /** After account deletion the user contributes nothing, the items of the user's own events and
      the user's personal brings are gone, and every other item keeps what the others bring. */
  lemma {:induction false} DeleteAccountReleases(db: Db, user: int)
    requires Valid(db)
    ensures var db' := DeleteAccount(db, user);
            && Valid(db')
            && (forall k :: k in db'.items <==>
                  (k in db.items && db.owners[k.event] != user &&
                   !(db.items[k].createdBy == Some(user) && db.catalog[k.item].kind == Bring)))
            && (forall u, k :: OwnPart(db', u, k) == if u == user || k !in db'.items then 0 else OwnPart(db, u, k))
            && (forall k :: k in db'.items ==>
                  db'.items[k] == db.items[k].(
                    quantity := db.items[k].quantity - OwnPart(db, user, k),
                    createdBy := if db.items[k].createdBy == Some(user) then None else db.items[k].createdBy))
            && (forall e :: e in db'.owners <==> e in db.owners && db.owners[e] != user)
            && (forall e :: e in db'.owners ==> db'.owners[e] == db.owners[e]) && db'.catalog == db.catalog
  {
    DeleteAccountValid(db, user);
    RecomputationAgrees(db, user);
    forall k | k in db.items ensures k.event in db.owners && k.item in db.catalog { assert ItemOk(db, k); }
    forall p | p in db.parts ensures p.key in db.items { assert PartOk(db, p); }
  }

  // ----- Caps -----

  /** No item is reserved beyond its cap. */
  ghost predicate WithinCaps(db: Db) {
    forall k :: k in db.items ==> db.items[k].quantity <= db.items[k].max
  }

  /** Attaching breaks a cap exactly when it sets the cap below what is already reserved. */
  lemma {:induction false} AttachBreaksCapIff(db: Db, creator: int, k: Key, max: int)
    requires Valid(db) && WithinCaps(db) && Attach(db, creator, k, max).1.Ok?
    ensures WithinCaps(Attach(db, creator, k, max).0) <==> k !in db.items || db.items[k].quantity <= max
  {
    var db' := Attach(db, creator, k, max).0;
    assert k in db'.items;
  }

  // ----- Runs -----

  datatype Op =
    | AddEvent(event: int, owner: int)
    | AddItem(item: int, name: string, kind: Kind)
    | ReserveOp(user: int, key: Key, requested: int)
    | AttachOp(user: int, key: Key, max: int)
    | CustomOp(user: int, event: int, name: string, kind: Kind, max: int, existing: Option<int>, newId: int)
    | DeleteItemOp(user: int, key: Key)
    | DeclineOp(user: int, event: int)
    | DeleteAccountOp(user: int)

  /** The lookup of an attached item by name and kind. */
  predicate Finds(db: Db, event: int, name: string, kind: Kind, item: int) {
    Key(event, item) in db.items && item in db.catalog && db.catalog[item] == Item(name, kind)
  }

  /** Integers of a request are 32-bit, identifiers of new rows are new, and lookups return a
      matching row if there is one. */
  ghost predicate Admissible(db: Db, op: Op) {
    match op
    case AddEvent(event, _) => event !in db.owners
    case AddItem(item, _, _) => item !in db.catalog
    case ReserveOp(_, _, requested) => IsI32(requested)
    case AttachOp(_, _, max) => IsI32(max)
    case CustomOp(_, event, name, kind, max, existing, newId) =>
      && IsI32(max) && newId !in db.catalog
      && (if existing.Some? then Finds(db, event, name, kind, existing.value)
          else forall item :: !Finds(db, event, name, kind, item))
    case _ => true
  }

  ghost function Step(db: Db, op: Op): Db {
    match op
    case AddEvent(event, owner) => db.(owners := db.owners[event := owner])
    case AddItem(item, name, kind) => db.(catalog := db.catalog[item := Item(name, kind)])
    case ReserveOp(user, key, requested) => Reserve(db, user, key, requested).0
    case AttachOp(user, key, max) => Attach(db, user, key, max).0
    case CustomOp(user, event, name, kind, max, existing, newId) =>
      Custom(db, user, event, name, kind, max, existing, newId).0
    case DeleteItemOp(user, key) => DeleteItem(db, user, key).0
    case DeclineOp(user, event) => Decline(db, user, event)
    case DeleteAccountOp(user) => DeleteAccount(db, user)
  }

  lemma {:induction false} StepKeeps(db: Db, op: Op)
    requires Valid(db) && Admissible(db, op)
    ensures Valid(Step(db, op))
  {
    match op
    case ReserveOp(user, key, requested) => ReserveKeeps(db, user, key, requested);
    case AttachOp(user, key, max) => AttachKeeps(db, user, key, max);
    case CustomOp(user, event, name, kind, max, existing, newId) =>
      CustomKeeps(db, user, event, name, kind, max, existing, newId);
    case DeleteItemOp(user, key) => WithoutKeeps(db, {key});
    case DeclineOp(user, event) => DeclineReleasesContributions(db, user, event);
    case DeleteAccountOp(user) => DeleteAccountValid(db, user);
    case _ =>
      forall k | k in db.items ensures ItemOk(Step(db, op), k) { assert ItemOk(db, k); }
      forall p | p in db.parts ensures PartOk(Step(db, op), p) { assert PartOk(db, p); }
  }

  /** Only attaching can take an item over its cap. */
  lemma {:induction false} CapsKept(db: Db, op: Op)
    requires Valid(db) && Admissible(db, op) && WithinCaps(db) && !op.AttachOp?
    ensures WithinCaps(Step(db, op))
  {
    match op
    case ReserveOp(user, key, requested) => ReserveEffect(db, user, key, requested);
    case DeclineOp(user, event) =>
      DeclineReleasesContributions(db, user, event);
      forall k | k in db.items ensures 0 <= OwnPart(db, user, k) { QuantityBounds(db, k, user); }
    case DeleteAccountOp(user) =>
      RecomputationAgrees(db, user);
      forall k | k in db.items ensures 0 <= OwnPart(db, user, k) { QuantityBounds(db, k, user); }
    case _ =>
  }

  ghost function After(ops: seq<Op>): Db {
    if ops == [] then Db(map[], map[], map[], map[]) else Step(After(ops[..|ops| - 1]), ops[|ops| - 1])
  }

  ghost predicate AllAdmissible(ops: seq<Op>) {
    forall i :: 0 <= i < |ops| ==> Admissible(After(ops[..i]), ops[i])
  }

  /** The operation does not lower a cap below what is reserved. */
  ghost predicate CapRespected(db: Db, op: Op) {
    op.AttachOp? && op.key in db.items ==> db.items[op.key].quantity <= op.max
  }

  lemma {:induction false} PrefixAdmissible(ops: seq<Op>)
    requires AllAdmissible(ops) && ops != []
    ensures AllAdmissible(ops[..|ops| - 1]) && Admissible(After(ops[..|ops| - 1]), ops[|ops| - 1])
  {
    var before := ops[..|ops| - 1];
    forall i | 0 <= i < |before| ensures Admissible(After(before[..i]), before[i]) {
      assert before[..i] == ops[..i];
    }
  }

  /** In every reachable state the quantity is the sum of the contributions. */
  lemma {:induction false} EveryRunIsValid(ops: seq<Op>)
    requires AllAdmissible(ops)
    ensures Valid(After(ops))
  {
    if ops != [] {
      PrefixAdmissible(ops);
      EveryRunIsValid(ops[..|ops| - 1]);
      StepKeeps(After(ops[..|ops| - 1]), ops[|ops| - 1]);
    }
  }

  /** Caps survive a step exactly when it does not attach a cap below what is reserved. */
  lemma {:induction false} CapsKeptIff(db: Db, op: Op)
    requires Valid(db) && Admissible(db, op) && WithinCaps(db)
    ensures op.AttachOp? && Attach(db, op.user, op.key, op.max).1.Ok? ==> (WithinCaps(Step(db, op)) <==> CapRespected(db, op))
    ensures CapRespected(db, op) ==> WithinCaps(Step(db, op))
  {
    if !op.AttachOp? {
      CapsKept(db, op);
    } else if Attach(db, op.user, op.key, op.max).1.Ok? {
      AttachBreaksCapIff(db, op.user, op.key, op.max);
    }
  }

  /** As long as no cap is attached below what is reserved, no item is ever over its cap. */
  lemma {:induction false} EveryRunWithinCaps(ops: seq<Op>)
    requires AllAdmissible(ops)
    requires forall i :: 0 <= i < |ops| ==> CapRespected(After(ops[..i]), ops[i])
    ensures WithinCaps(After(ops))
  {
    if ops != [] {
      var before := ops[..|ops| - 1];
      PrefixAdmissible(ops);
      forall i | 0 <= i < |before| ensures CapRespected(After(before[..i]), before[i]) {
        assert before[..i] == ops[..i];
      }
      EveryRunWithinCaps(before);
      EveryRunIsValid(before);
      CapsKeptIff(After(before), ops[|ops| - 1]);
    }
  }

  lemma {:induction false} Extend(ops: seq<Op>, op: Op)
    requires AllAdmissible(ops) && Admissible(After(ops), op)
    ensures AllAdmissible(ops + [op]) && After(ops + [op]) == Step(After(ops), op)
  {
    assert (ops + [op])[..|ops|] == ops;
    forall i | 0 <= i < |ops| + 1 ensures Admissible(After((ops + [op])[..i]), (ops + [op])[i]) {
      assert i < |ops| ==> (ops + [op])[..i] == ops[..i];
    }
  }

  /** A reserved item: the organiser asks for five, and one guest brings all of them. */
  lemma {:induction false} FiveReserved() returns (ops: seq<Op>)
    ensures AllAdmissible(ops)
    ensures After(ops) == Db(map[1 := 9], map[4 := Item("plates", Need)],
                             map[Key(1, 4) := EventItem(5, 5, Some(9))], map[Part(2, Key(1, 4)) := 5])
  {
    var k := Key(1, 4);
    ops := [];
    Extend(ops, AddEvent(1, 9));
    ops := ops + [AddEvent(1, 9)];
    Extend(ops, AddItem(4, "plates", Need));
    ops := ops + [AddItem(4, "plates", Need)];
    Extend(ops, AttachOp(9, k, 5));
    ops := ops + [AttachOp(9, k, 5)];
    var db := After(ops);
    assert db == Db(map[1 := 9], map[4 := Item("plates", Need)], map[k := EventItem(5, 0, Some(9))], map[]);
    assert Reserve(db, 2, k, 5).0.items == map[k := EventItem(5, 5, Some(9))];
    Extend(ops, ReserveOp(2, k, 5));
    ops := ops + [ReserveOp(2, k, 5)];
  }

  /** Attaching the item again with a cap of one leaves five reserved. */
  lemma {:induction false} CapBelowReserved() returns (ops: seq<Op>)
    ensures AllAdmissible(ops) && !WithinCaps(After(ops))
  {
    var before := FiveReserved();
    var k := Key(1, 4);
    Extend(before, AttachOp(9, k, 1));
    ops := before + [AttachOp(9, k, 1)];
    assert After(ops).items == map[k := EventItem(1, 5, Some(9))];
    assert k in After(ops).items;
  }
}
