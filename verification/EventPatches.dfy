/**
 * Patches of one event that overlap. A patch reads the row with one statement and updates it with
 * another, without a transaction or a row lock, so other writes can land in between.
 */
module EventPatches {
  import opened Options
  import opened EventFeatures

  /** A patch between its two statements, with the row it read. */
  datatype Open = Open(patch: Patch, snapshot: Event)

  datatype World = World(row: Option<Event>, open: map<int, Open>)

  const EMPTY: World := World(None, map[])

  datatype Action = Save(payload: Payload) | Read(t: int, patch: Patch) | Land(t: int)

  /** `events_playlist_provider_check`: with a URL, a missing provider makes the constraint unknown
      rather than false, and an unknown constraint passes. */
  predicate CheckPasses(e: Event) {
    || (e.playlistProvider.None? && e.playlistUrl.None?)
    || (e.playlistUrl.Some? && Trim(e.playlistUrl.value) != "" &&
        (e.playlistProvider.None? || e.playlistProvider.value in PROVIDERS))
  }

  predicate Accepted(rules: Rules, o: Open) {
    Update(rules, o.snapshot, o.patch).Ok?
  }

  function DetailsRead(rules: Rules, o: Open): Details
    requires Accepted(rules, o)
  {
    PatchDetails(rules, o.snapshot, o.patch).value
  }

  function FeaturesRead(rules: Rules, o: Open): seq<string>
    requires Accepted(rules, o)
  {
    PatchFeatures(o.snapshot, o.patch, DetailsRead(rules, o)).value
  }

  /** The UPDATE works on the row as it is now, with values worked out from the row as it was read. */
  function Merged(rules: Rules, now: Event, o: Open): Event
    requires Accepted(rules, o)
  {
    Patched(now, o.patch, DetailsRead(rules, o), FeaturesRead(rules, o))
  }

  function Written(rules: Rules, now: Event, o: Open): Event {
    if Accepted(rules, o) && CheckPasses(Merged(rules, now, o)) then Merged(rules, now, o) else now
  }

  function Apply(rules: Rules, w: World, a: Action): World {
    match a
    case Save(payload) =>
      var r := Write(rules, payload);
      if r.Ok? then w.(row := Some(r.value)) else w
    case Read(t, patch) =>
      if w.row.Some? then w.(open := w.open[t := Open(patch, w.row.value)]) else w
    case Land(t) =>
      if w.row.Some? && t in w.open then World(Some(Written(rules, w.row.value, w.open[t])), w.open - {t}) else w
  }

  function After(rules: Rules, actions: seq<Action>): World {
    if actions == [] then EMPTY
    else Apply(rules, After(rules, actions[..|actions| - 1]), actions[|actions| - 1])
  }

  // ----- When a late update spoils the row -----

  /**
   * What the writer would have to check against the current row: a patch that names neither
   * playlist column must not list the playlist feature for a row that has lost its playlist, and
   * one that names a single column must fit the other column as it is now. A provider without a
   * URL is refused by the database.
   */
  predicate Spoils(rules: Rules, now: Event, o: Open) {
    Accepted(rules, o) &&
    var d := DetailsRead(rules, o);
    match (o.patch.playlistProvider.Some?, o.patch.playlistUrl.Some?)
    case (true, true) => false
    case (false, false) => PLAYLIST in FeaturesRead(rules, o) && now.playlistProvider.None?
    case (true, false) =>
      now.playlistUrl.Some? &&
      (d.playlistProvider.None? || !rules.playlistUrl(d.playlistProvider.value, now.playlistUrl.value))
    case (false, true) =>
      d.playlistUrl.Some? &&
      (now.playlistProvider.None? || !rules.playlistUrl(now.playlistProvider.value, d.playlistUrl.value))
  }

  lemma {:induction false} AcceptedMeans(rules: Rules, o: Open)
    requires Consistent(rules, o.snapshot) && Accepted(rules, o)
    ensures var d, features := DetailsRead(rules, o), FeaturesRead(rules, o);
            && WellFormed(features) && PlaylistOk(rules, d.playlistProvider, d.playlistUrl)
            && (PLAYLIST in features ==> d.playlistProvider.Some? && d.playlistUrl.Some?)
            && (PAYMENT in features ==> d.paymentProvider.Some? && d.paymentIdentifier.Some?)
            && PaymentOk(d.paymentProvider, d.paymentIdentifier)
            && (!o.patch.playlistProvider.Some? ==> d.playlistProvider == o.snapshot.playlistProvider)
            && (!o.patch.playlistUrl.Some? ==> d.playlistUrl == o.snapshot.playlistUrl)
  {
    var d, p := DetailsRead(rules, o), o.patch;
    PatchedPlaylistStored(rules, o.snapshot, p);
    ResolvedMeans(Some(if p.features.Some? then p.features.value else Sync(o.snapshot.features, d)), d);
  }

  /** A late update keeps a consistent row consistent exactly when it does not spoil it. */
  lemma {:induction false} WriteKeepsIff(rules: Rules, now: Event, o: Open)
    requires Consistent(rules, now) && Consistent(rules, o.snapshot)
    ensures Consistent(rules, Written(rules, now, o)) <==> !Spoils(rules, now, o)
  {
    if Accepted(rules, o) { AcceptedMeans(rules, o); }
  }

  /** So nothing can go wrong while the playlist columns are the ones that were read. */
  lemma {:induction false} UnchangedIsSafe(rules: Rules, now: Event, o: Open)
    requires Consistent(rules, o.snapshot)
    requires now.playlistProvider == o.snapshot.playlistProvider && now.playlistUrl == o.snapshot.playlistUrl
    ensures !Spoils(rules, now, o)
  {
    if Accepted(rules, o) { AcceptedMeans(rules, o); }
  }

  // ----- Runs -----

  ghost predicate RowConsistent(rules: Rules, w: World) {
    w.row.Some? ==> Consistent(rules, w.row.value)
  }

  predicate SpoilsAt(rules: Rules, w: World, a: Action) {
    a.Land? && w.row.Some? && a.t in w.open && Spoils(rules, w.row.value, w.open[a.t])
  }

  /** The row is consistent after every action. */
  ghost predicate AlwaysConsistent(rules: Rules, actions: seq<Action>) {
    && RowConsistent(rules, After(rules, actions))
    && (actions != [] ==> AlwaysConsistent(rules, actions[..|actions| - 1]))
  }

  /** No action is an update that spoils the row it finds. */
  predicate NeverSpoils(rules: Rules, actions: seq<Action>) {
    actions != [] ==>
      && NeverSpoils(rules, actions[..|actions| - 1])
      && !SpoilsAt(rules, After(rules, actions[..|actions| - 1]), actions[|actions| - 1])
  }

  ghost predicate SnapshotsConsistent(rules: Rules, w: World) {
    forall t :: t in w.open ==> Consistent(rules, w.open[t].snapshot)
  }

  lemma {:induction false} StepKeepsIff(rules: Rules, w: World, a: Action)
    requires RowConsistent(rules, w) && SnapshotsConsistent(rules, w)
    ensures SnapshotsConsistent(rules, Apply(rules, w, a))
    ensures RowConsistent(rules, Apply(rules, w, a)) <==> !SpoilsAt(rules, w, a)
  {
    match a
    case Save(payload) => if Write(rules, payload).Ok? { WriteKeeps(rules, payload); }
    case Read(_, _) =>
    case Land(t) => if w.row.Some? && t in w.open { WriteKeepsIff(rules, w.row.value, w.open[t]); }
  }

  /** With any number of patches open at once, every state of a run is consistent exactly when no
      update of the run spoils the row it finds. */
  lemma {:induction false} InterleavedConsistentIff(rules: Rules, actions: seq<Action>)
    ensures AlwaysConsistent(rules, actions) <==> NeverSpoils(rules, actions)
    ensures AlwaysConsistent(rules, actions) ==> SnapshotsConsistent(rules, After(rules, actions))
  {
    if actions != [] {
      var before := actions[..|actions| - 1];
      InterleavedConsistentIff(rules, before);
      if AlwaysConsistent(rules, before) { StepKeepsIff(rules, After(rules, before), actions[|actions| - 1]); }
    }
  }

  /** The features stay distinct and allowed and the payment columns and feature fit each other in
      every interleaving: only the playlist can be spoilt. */
  predicate PaymentSide(e: Event) {
    && WellFormed(e.features) && PaymentOk(e.paymentProvider, e.paymentIdentifier)
    && (PAYMENT in e.features ==> e.paymentProvider.Some? && e.paymentIdentifier.Some?)
  }

  lemma {:induction false} WrittenPaymentSide(rules: Rules, now: Event, o: Open)
    requires PaymentSide(now) && PaymentSide(o.snapshot)
    ensures PaymentSide(Written(rules, now, o))
  {
    if Accepted(rules, o) {
      var d, p := DetailsRead(rules, o), o.patch;
      ResolvedMeans(Some(if p.features.Some? then p.features.value else Sync(o.snapshot.features, d)), d);
    }
  }

  lemma {:induction false} PaymentAlwaysFits(rules: Rules, actions: seq<Action>)
    ensures var w := After(rules, actions);
            (w.row.Some? ==> PaymentSide(w.row.value)) && (forall t :: t in w.open ==> PaymentSide(w.open[t].snapshot))
  {
    if actions != [] {
      PaymentAlwaysFits(rules, actions[..|actions| - 1]);
      var w := After(rules, actions[..|actions| - 1]);
      match actions[|actions| - 1]
      case Save(payload) => if Write(rules, payload).Ok? { WriteKeeps(rules, payload); }
      case Read(_, _) =>
      case Land(t) => if w.row.Some? && t in w.open { WrittenPaymentSide(rules, w.row.value, w.open[t]); }
    }
  }

  lemma {:induction false} Next(rules: Rules, actions: seq<Action>, a: Action)
    ensures After(rules, actions + [a]) == Apply(rules, After(rules, actions), a)
  {
    assert (actions + [a])[..|actions|] == actions;
  }

  const RENAME: Patch := Patch(None, None, None, None, None)
  const CLEAR: Patch := Patch(None, Some(None), Some(None), None, None)

  /** Two patches have read a row with a playlist. */
  lemma {:induction false} BothRead(rules: Rules, url: string) returns (actions: seq<Action>, e: Event)
    requires Clean(url) && rules.playlistUrl("spotify", url)
    ensures After(rules, actions) == World(Some(e), map[1 := Open(RENAME, e), 2 := Open(CLEAR, e)])
    ensures Consistent(rules, e) && e == Event([PLAYLIST], Some("spotify"), Some(url), None, None)
  {
    var payload := Payload(Some([PLAYLIST]), Some("spotify"), Some(url), None, None);
    e := StoredWithPlaylist(rules, url);
    Next(rules, [], Save(payload));
    var saved := [] + [Save(payload)];
    assert After(rules, saved) == World(Some(e), map[]);
    Next(rules, saved, Read(1, RENAME));
    Next(rules, saved + [Read(1, RENAME)], Read(2, CLEAR));
    actions := saved + [Read(1, RENAME)] + [Read(2, CLEAR)];
  }

  /** A patch of unrelated fields reads the row, another patch clears the playlist, and the first
      one then lists the playlist feature of a row that has none. */
  lemma {:induction false} PlaylistLost(rules: Rules, url: string) returns (actions: seq<Action>)
    requires Clean(url) && rules.playlistUrl("spotify", url)
    ensures var row := After(rules, actions).row;
            row.Some? && PLAYLIST in row.value.features && row.value.playlistProvider.None? && row.value.playlistUrl.None?
  {
    var read, e := BothRead(rules, url);
    ClearWrites(rules, e);
    Next(rules, read, Land(2));
    var cleared := Event([], None, None, None, None);
    assert After(rules, read + [Land(2)]) == World(Some(cleared), map[1 := Open(RENAME, e)]);
    RenameWrites(rules, e, cleared);
    Next(rules, read + [Land(2)], Land(1));
    actions := read + [Land(2)] + [Land(1)];
  }

  lemma {:induction false} StoredWithPlaylist(rules: Rules, url: string) returns (e: Event)
    requires Clean(url) && rules.playlistUrl("spotify", url)
    ensures e == Event([PLAYLIST], Some("spotify"), Some(url), None, None)
    ensures Write(rules, Payload(Some([PLAYLIST]), Some("spotify"), Some(url), None, None)) == Ok(e)
    ensures Consistent(rules, e)
  {
    e := Event([PLAYLIST], Some("spotify"), Some(url), None, None);
    AllowedNames("spotify");
    AllowedNames(PLAYLIST);
    NormalizedKeeps([PLAYLIST]);
  }

  lemma {:induction false} ClearWrites(rules: Rules, e: Event)
    requires Consistent(rules, e) && e.features == [PLAYLIST] && e.paymentProvider.None? && e.paymentIdentifier.None?
    ensures Written(rules, e, Open(CLEAR, e)) == Event([], None, None, None, None)
  {
    var d := Details(None, None, None, None);
    assert [PLAYLIST][..0] == [];
    assert Without([PLAYLIST], PLAYLIST) == [];
    assert Sync([PLAYLIST], d) == [];
    SyncResolves([PLAYLIST], d);
  }

  lemma {:induction false} RenameWrites(rules: Rules, e: Event, now: Event)
    requires Consistent(rules, e) && e.features == [PLAYLIST] && e.paymentProvider.None? && e.paymentIdentifier.None?
    requires now == Event([], None, None, None, None)
    ensures Written(rules, now, Open(RENAME, e)) == now.(features := [PLAYLIST])
  {
    StoredPlaylistIsNormal(rules, e.playlistProvider, e.playlistUrl);
    var d := DetailsOf(e);
    AllowedNames(e.playlistProvider.value);
    assert [PLAYLIST][..0] == [];
    assert Without([PLAYLIST], PAYMENT) == [PLAYLIST];
    assert Sync([PLAYLIST], d) == [PLAYLIST];
    SyncResolves([PLAYLIST], d);
  }
}
