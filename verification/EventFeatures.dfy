/** The optional features of an event against the playlist and payment details they need. */
module EventFeatures {
  import opened Options

  const PLAYLIST := "playlist"
  const PAYMENT := "payment"
  const DEFAULTS: seq<string> := ["carpools", "polls", "items"]
  const ALLOWED: seq<string> := ["carpools", "polls", "items", "ticketing", "playlist", "payment", "expenses"]
  const PROVIDERS: seq<string> := ["spotify", "apple_music", "deezer"]

  datatype Error =
    | InvalidFeatures | InvalidPlaylist | InvalidPlaylistProvider | InvalidPlaylistUrl
    | InvalidPaymentLink | InvalidPayload | UnknownPaymentProvider

  /** What is decided elsewhere: which links a playlist or payment provider accepts, and which
      payment providers exist. */
  datatype Rules = Rules(
    playlistUrl: (string, string) -> bool, paymentLink: (int, string) -> bool, known: int -> bool)

  /** The columns of an event row. */
  datatype Event = Event(
    features: seq<string>, playlistProvider: Option<string>, playlistUrl: Option<string>,
    paymentProvider: Option<int>, paymentIdentifier: Option<string>)

  datatype Payload = Payload(
    features: Option<seq<string>>, playlistProvider: Option<string>, playlistUrl: Option<string>,
    paymentProvider: Option<int>, paymentIdentifier: Option<string>)

  /** In a patch an absent field and an explicit null differ for the playlist. */
  datatype Patch = Patch(
    features: Option<seq<string>>, playlistProvider: Option<Option<string>>, playlistUrl: Option<Option<string>>,
    paymentProvider: Option<int>, paymentIdentifier: Option<string>)

  // ----- Text -----

  predicate IsBlank(c: char) { c in [' ', '\t', '\n', '\r'] }

  function Trim(s: string): (t: string)
    ensures t != "" ==> !IsBlank(t[0]) && !IsBlank(t[|t| - 1])
    ensures s != "" && !IsBlank(s[0]) && !IsBlank(s[|s| - 1]) ==> t == s
  {
    if s == "" then ""
    else if IsBlank(s[0]) then Trim(s[1..])
    else if IsBlank(s[|s| - 1]) then Trim(s[..|s| - 1])
    else s
  }

  function LowerChar(c: char): char {
    if 'A' <= c <= 'Z' then (c as int + 32) as char else c
  }

  function Lower(s: string): (t: string)
    ensures |t| == |s|
  {
    seq(|s|, i requires 0 <= i < |s| => LowerChar(s[i]))
  }

  function Name(s: string): string { Lower(Trim(s)) }

  /** Trimmed, and not blank. */
  predicate Clean(s: string) { s != "" && Trim(s) == s }

  // ----- Normalisation -----

  function Append(features: seq<string>, feature: string): seq<string> {
    if feature in features then features else features + [feature]
  }

  function Without(features: seq<string>, feature: string): seq<string> {
    if features == [] then []
    else
      var before := Without(features[..|features| - 1], feature);
      if features[|features| - 1] == feature then before else before + [features[|features| - 1]]
  }

  function Normalized(features: seq<string>): Result<seq<string>, Error> {
    if features == [] then Ok([])
    else match Normalized(features[..|features| - 1])
      case Err(e) => Err(e)
      case Ok(before) =>
        var value := Name(features[|features| - 1]);
        if value == "" then Ok(before)
        else if value !in ALLOWED then Err(InvalidFeatures)
        else Ok(Append(before, value))
  }

  function HasPlaylist(provider: Option<string>, url: Option<string>): bool {
    provider.Some? && Trim(provider.value) != "" && url.Some? && Trim(url.value) != ""
  }

  function HasPayment(provider: Option<int>, identifier: Option<string>): bool {
    provider.Some? && identifier.Some? && Trim(identifier.value) != ""
  }

  /** What features are checked against. */
  datatype Details = Details(
    playlistProvider: Option<string>, playlistUrl: Option<string>, paymentProvider: Option<int>, paymentIdentifier: Option<string>)
  {
    predicate Playlist() { HasPlaylist(playlistProvider, playlistUrl) }

    predicate Payment() { HasPayment(paymentProvider, paymentIdentifier) }
  }

  function Resolve(requested: Option<seq<string>>, d: Details): Result<seq<string>, Error> {
    var inferred :=
      if requested.Some? then Normalized(requested.value)
      else
        var withPlaylist := if d.Playlist() then Append(DEFAULTS, PLAYLIST) else DEFAULTS;
        Ok(if d.Payment() then Append(withPlaylist, PAYMENT) else withPlaylist);
    match inferred
    case Err(e) => Err(e)
    case Ok(features) =>
      if PLAYLIST in features && !d.Playlist() then Err(InvalidFeatures)
      else if PAYMENT in features && !d.Payment() then Err(InvalidFeatures)
      else Ok(features)
  }

  function Sync(features: seq<string>, d: Details): seq<string> {
    var synced := if d.Playlist() then Append(features, PLAYLIST) else Without(features, PLAYLIST);
    if d.Payment() then Append(synced, PAYMENT) else Without(synced, PAYMENT)
  }

  function NonBlank(s: string): Option<string> { if s == "" then None else Some(s) }

  function NormalizePlaylist(rules: Rules, provider: Option<string>, url: Option<string>)
    : Result<(Option<string>, Option<string>), Error>
  {
    var p := if provider.Some? then NonBlank(Name(provider.value)) else None;
    var u := if url.Some? then NonBlank(Trim(url.value)) else None;
    if p.None? && u.None? then Ok((None, None))
    else if p.None? || u.None? then Err(InvalidPlaylist)
    else if p.value !in PROVIDERS then Err(InvalidPlaylistProvider)
    else if !rules.playlistUrl(p.value, u.value) then Err(InvalidPlaylistUrl)
    else Ok((p, u))
  }

  function NormalizePayment(rules: Rules, provider: Option<int>, identifier: Option<string>)
    : Result<(Option<int>, Option<string>), Error>
  {
    var link := if identifier.Some? then NonBlank(Trim(identifier.value)) else None;
    if provider.None? && link.Some? then Err(InvalidPayload)
    else if provider.None? || link.None? then Ok((provider, None))
    else if !rules.known(provider.value) then Err(UnknownPaymentProvider)
    else if !rules.paymentLink(provider.value, link.value) then Err(InvalidPaymentLink)
    else Ok((provider, link))
  }

  // ----- The handlers -----

  /** The row that creating or replacing writes; the foreign key refuses an unknown provider. */
  function Write(rules: Rules, p: Payload): Result<Event, Error> {
    match NormalizePayment(rules, p.paymentProvider, p.paymentIdentifier)
    case Err(e) => Err(e)
    case Ok((paymentProvider, paymentIdentifier)) =>
      match NormalizePlaylist(rules, p.playlistProvider, p.playlistUrl)
      case Err(e) => Err(e)
      case Ok((provider, url)) =>
        match Resolve(p.features, Details(provider, url, paymentProvider, paymentIdentifier))
        case Err(e) => Err(e)
        case Ok(features) =>
          if paymentProvider.Some? && !rules.known(paymentProvider.value) then Err(UnknownPaymentProvider)
          else Ok(Event(features, provider, url, paymentProvider, paymentIdentifier))
  }

  function Or<T>(a: Option<T>, b: Option<T>): Option<T> { if a.Some? then a else b }

  predicate Cleared(o: Option<Option<string>>) { o.Some? && o.value.None? }

  /** The playlist after a patch, before it is written. */
  function PatchedPlaylist(rules: Rules, e: Event, p: Patch): Result<(Option<string>, Option<string>), Error> {
    if Cleared(p.playlistProvider) != Cleared(p.playlistUrl) then Err(InvalidPlaylist)
    else if Cleared(p.playlistProvider) then Ok((None, None))
    else NormalizePlaylist(rules, if p.playlistProvider.Some? then p.playlistProvider.value else e.playlistProvider,
                           if p.playlistUrl.Some? then p.playlistUrl.value else e.playlistUrl)
  }

  function PatchedPayment(rules: Rules, e: Event, p: Patch): Result<(Option<int>, Option<string>), Error> {
    NormalizePayment(rules, Or(p.paymentProvider, e.paymentProvider), Or(p.paymentIdentifier, e.paymentIdentifier))
  }

  /** What a patch resolves the features against, once its payment and playlist are valid. */
  function PatchDetails(rules: Rules, e: Event, p: Patch): Result<Details, Error> {
    match PatchedPayment(rules, e, p)
    case Err(error) => Err(error)
    case Ok((paymentProvider, paymentIdentifier)) =>
      match PatchedPlaylist(rules, e, p)
      case Err(error) => Err(error)
      case Ok((provider, url)) => Ok(Details(provider, url, paymentProvider, paymentIdentifier))
  }

  function PatchFeatures(e: Event, p: Patch, d: Details): Result<seq<string>, Error> {
    Resolve(Some(if p.features.Some? then p.features.value else Sync(e.features, d)), d)
  }

  /** The UPDATE: payment columns through COALESCE, playlist columns where the patch names them. */
  function Patched(e: Event, p: Patch, d: Details, features: seq<string>): Event {
    Event(features,
          if p.playlistProvider.Some? then d.playlistProvider else e.playlistProvider,
          if p.playlistUrl.Some? then d.playlistUrl else e.playlistUrl,
          Or(d.paymentProvider, e.paymentProvider), Or(d.paymentIdentifier, e.paymentIdentifier))
  }

  function Update(rules: Rules, e: Event, p: Patch): Result<Event, Error> {
    match PatchDetails(rules, e, p)
    case Err(error) => Err(error)
    case Ok(d) =>
      match PatchFeatures(e, p, d)
      case Err(error) => Err(error)
      case Ok(features) =>
        if d.paymentProvider.Some? && !rules.known(d.paymentProvider.value) then Err(UnknownPaymentProvider)
        else Ok(Patched(e, p, d, features))
  }

  // ----- What a stored event always satisfies -----

  predicate Distinct(s: seq<string>) { forall i, j :: 0 <= i < j < |s| ==> s[i] != s[j] }

  predicate WellFormed(features: seq<string>) {
    Distinct(features) && forall f :: f in features ==> f in ALLOWED
  }

  /** Both playlist columns are set, to a pair that was accepted, or neither is. */
  predicate PlaylistOk(rules: Rules, provider: Option<string>, url: Option<string>) {
    || (provider.None? && url.None?)
    || (provider.Some? && url.Some? && provider.value in PROVIDERS && Clean(url.value) && rules.playlistUrl(provider.value, url.value))
  }

  /** An identifier needs a provider, and is never blank. */
  predicate PaymentOk(provider: Option<int>, identifier: Option<string>) {
    identifier.Some? ==> provider.Some? && Clean(identifier.value)
  }

  function DetailsOf(e: Event): Details {
    Details(e.playlistProvider, e.playlistUrl, e.paymentProvider, e.paymentIdentifier)
  }

  predicate Consistent(rules: Rules, e: Event) {
    && WellFormed(e.features)
    && PlaylistOk(rules, e.playlistProvider, e.playlistUrl)
    && PaymentOk(e.paymentProvider, e.paymentIdentifier)
    && (PLAYLIST in e.features ==> e.playlistProvider.Some? && e.playlistUrl.Some?)
    && (PAYMENT in e.features ==> e.paymentProvider.Some? && e.paymentIdentifier.Some?)
  }

  predicate IsCapital(c: char) { 'A' <= c <= 'Z' }

  /** Not empty, without blanks at its ends and without capitals. */
  predicate Plain(s: string) {
    s != "" && !IsBlank(s[0]) && !IsBlank(s[|s| - 1]) && forall i :: 0 <= i < |s| ==> !IsCapital(s[i])
  }

  lemma {:induction false} FeaturesArePlain()
    ensures Plain("carpools") && Plain("polls") && Plain("items") && Plain("ticketing")
    ensures Plain(PLAYLIST) && Plain(PAYMENT) && Plain("expenses")
  {
  }

  lemma {:induction false} ProvidersArePlain()
    ensures Plain("spotify") && Plain("apple_music") && Plain("deezer")
  {
  }

  lemma {:induction false} AllowedNames(f: string)
    requires f in ALLOWED || f in PROVIDERS
    ensures Clean(f) && Name(f) == f
  {
    FeaturesArePlain();
    ProvidersArePlain();
    PlainNames(f);
  }

  lemma {:induction false} PlainNames(f: string)
    requires Plain(f)
    ensures Clean(f) && Name(f) == f
  {
    assert forall i :: 0 <= i < |f| ==> LowerChar(f[i]) == f[i] by {
      assert forall i :: 0 <= i < |f| ==> !IsCapital(f[i]);
    }
    assert Lower(f) == f;
  }

  /** A list is accepted exactly when its non-blank names are all allowed. */
  lemma {:induction false} NormalizedAccepts(features: seq<string>)
    ensures Normalized(features).Ok? <==> forall f :: f in features ==> Name(f) == "" || Name(f) in ALLOWED
  {
    if features != [] {
      var before, last := features[..|features| - 1], features[|features| - 1];
      NormalizedAccepts(before);
      assert features == before + [last];
      assert last in features;
    }
  }

  /** A non-blank name that stands in the list. */
  ghost predicate IsNamed(features: seq<string>, name: string) {
    name != "" && exists i :: 0 <= i < |features| && Name(features[i]) == name
  }

  lemma {:induction false} NamedStep(features: seq<string>, name: string)
    requires features != []
    ensures var before, last := features[..|features| - 1], Name(features[|features| - 1]);
            IsNamed(features, name) <==> IsNamed(before, name) || (last == name && name != "")
  {
    var before := features[..|features| - 1];
    assert forall i :: 0 <= i < |before| ==> before[i] == features[i];
  }

  /** Normalising keeps exactly the names that stand in the list. */
  lemma {:induction false} NormalizedNames(features: seq<string>, name: string)
    requires Normalized(features).Ok?
    ensures name in Normalized(features).value <==> IsNamed(features, name)
  {
    if features != [] {
      NormalizedNames(features[..|features| - 1], name);
      NamedStep(features, name);
    }
  }

  /** And each of them once. */
  lemma {:induction false} NormalizedMeans(features: seq<string>)
    requires Normalized(features).Ok?
    ensures WellFormed(Normalized(features).value)
    ensures forall name :: name in Normalized(features).value <==> IsNamed(features, name)
  {
    forall name ensures name in Normalized(features).value <==> IsNamed(features, name) { NormalizedNames(features, name); }
    if features != [] {
      NormalizedMeans(features[..|features| - 1]);
    }
  }

  /** A list that is already well-formed is left as it is. */
  lemma {:induction false} NormalizedKeeps(features: seq<string>)
    requires WellFormed(features)
    ensures Normalized(features) == Ok(features)
  {
    if features != [] {
      var before, last := features[..|features| - 1], features[|features| - 1];
      LastIsNew(features);
      NormalizedKeeps(before);
      AllowedNames(last);
    }
  }

  lemma {:induction false} LastIsNew(features: seq<string>)
    requires WellFormed(features) && features != []
    ensures var before, last := features[..|features| - 1], features[|features| - 1];
            WellFormed(before) && last in ALLOWED && last !in before && features == before + [last]
  {
    var before, last := features[..|features| - 1], features[|features| - 1];
    assert features == before + [last];
    assert last in features;
  }

  lemma {:induction false} WithoutMeans(features: seq<string>, feature: string)
    requires WellFormed(features)
    ensures WellFormed(Without(features, feature))
    ensures forall f :: f in Without(features, feature) <==> f in features && f != feature
  {
    if features != [] {
      var before, last := features[..|features| - 1], features[|features| - 1];
      WithoutMeans(before, feature);
      assert features == before + [last];
      assert last !in before;
    }
  }

  lemma {:induction false} AppendMeans(features: seq<string>, feature: string)
    requires WellFormed(features) && feature in ALLOWED
    ensures WellFormed(Append(features, feature))
    ensures forall f :: f in Append(features, feature) <==> f in features || f == feature
  {
  }

  /** Synchronising sets the two optional features to what the details say and touches no other. */
  lemma {:induction false} SyncMeans(features: seq<string>, d: Details)
    requires WellFormed(features)
    ensures WellFormed(Sync(features, d))
    ensures PLAYLIST in Sync(features, d) <==> d.Playlist()
    ensures PAYMENT in Sync(features, d) <==> d.Payment()
    ensures forall f :: f != PLAYLIST && f != PAYMENT ==> (f in Sync(features, d) <==> f in features)
  {
    AppendMeans(features, PLAYLIST);
    WithoutMeans(features, PLAYLIST);
    var synced := if d.Playlist() then Append(features, PLAYLIST) else Without(features, PLAYLIST);
    AppendMeans(synced, PAYMENT);
    WithoutMeans(synced, PAYMENT);
  }

  /** A patch that gives no features never fails over features. */
  lemma {:induction false} SyncResolves(features: seq<string>, d: Details)
    requires WellFormed(features)
    ensures Resolve(Some(Sync(features, d)), d) == Ok(Sync(features, d))
  {
    SyncMeans(features, d);
    NormalizedKeeps(Sync(features, d));
  }

  /** With a consistent event such a patch is refused only for its payment or playlist details. */
  lemma {:induction false} PatchWithoutFeatures(rules: Rules, e: Event, p: Patch)
    requires Consistent(rules, e) && p.features.None? && PatchDetails(rules, e, p).Ok?
    ensures var d := PatchDetails(rules, e, p).value;
            && PatchFeatures(e, p, d) == Ok(Sync(e.features, d))
            && (Update(rules, e, p).Ok? <==> (d.paymentProvider.Some? ==> rules.known(d.paymentProvider.value)))
  {
    SyncResolves(e.features, PatchDetails(rules, e, p).value);
  }

  lemma {:induction false} ResolvedMeans(requested: Option<seq<string>>, d: Details)
    requires Resolve(requested, d).Ok?
    ensures var features := Resolve(requested, d).value;
            WellFormed(features) && (PLAYLIST in features ==> d.Playlist()) && (PAYMENT in features ==> d.Payment())
  {
    if requested.Some? {
      NormalizedMeans(requested.value);
    } else {
      AppendMeans(DEFAULTS, PLAYLIST);
    }
  }

  lemma {:induction false} NormalizedPlaylistOk(rules: Rules, provider: Option<string>, url: Option<string>)
    ensures NormalizePlaylist(rules, provider, url).Ok? ==>
              PlaylistOk(rules, NormalizePlaylist(rules, provider, url).value.0, NormalizePlaylist(rules, provider, url).value.1)
  {
  }

  /** Normalising a stored pair changes nothing. */
  lemma {:induction false} StoredPlaylistIsNormal(rules: Rules, provider: Option<string>, url: Option<string>)
    requires PlaylistOk(rules, provider, url)
    ensures NormalizePlaylist(rules, provider, url) == Ok((provider, url))
  {
    if provider.Some? { AllowedNames(provider.value); }
  }

  lemma {:induction false} WriteKeeps(rules: Rules, p: Payload)
    requires Write(rules, p).Ok?
    ensures Consistent(rules, Write(rules, p).value)
  {
    var e := Write(rules, p).value;
    NormalizedPlaylistOk(rules, p.playlistProvider, p.playlistUrl);
    ResolvedMeans(p.features, DetailsOf(e));
  }

  /** The playlist a patch writes is the pair it validated, although it writes only the columns it names. */
  lemma {:induction false} PatchedPlaylistStored(rules: Rules, e: Event, p: Patch)
    requires Consistent(rules, e) && PatchedPlaylist(rules, e, p).Ok?
    ensures var (provider, url) := PatchedPlaylist(rules, e, p).value;
            && (if p.playlistProvider.Some? then provider else e.playlistProvider) == provider
            && (if p.playlistUrl.Some? then url else e.playlistUrl) == url
            && PlaylistOk(rules, provider, url)
  {
    StoredPlaylistIsNormal(rules, e.playlistProvider, e.playlistUrl);
    if !Cleared(p.playlistProvider) {
      NormalizedPlaylistOk(rules, if p.playlistProvider.Some? then p.playlistProvider.value else e.playlistProvider,
                           if p.playlistUrl.Some? then p.playlistUrl.value else e.playlistUrl);
    }
  }

  lemma {:induction false} PatchedConsistent(rules: Rules, e: Event, p: Patch, features: seq<string>)
    requires Consistent(rules, e) && PatchDetails(rules, e, p).Ok? && WellFormed(features)
    requires var d := PatchDetails(rules, e, p).value;
             (PLAYLIST in features ==> d.Playlist()) && (PAYMENT in features ==> d.Payment())
    ensures Consistent(rules, Patched(e, p, PatchDetails(rules, e, p).value, features))
  {
    PatchedPlaylistStored(rules, e, p);
  }

  lemma {:induction false} UpdateKeeps(rules: Rules, e: Event, p: Patch)
    requires Consistent(rules, e) && Update(rules, e, p).Ok?
    ensures Consistent(rules, Update(rules, e, p).value)
  {
    var d := PatchDetails(rules, e, p).value;
    var features := PatchFeatures(e, p, d).value;
    ResolvedMeans(Some(if p.features.Some? then p.features.value else Sync(e.features, d)), d);
    PatchedConsistent(rules, e, p, features);
  }

  /** What an accepted patch stores: the validated playlist pair, the provider it names or else the
      old one, and the identifier it gives, trimmed, or else the old one. */
  lemma {:induction false} PatchStores(rules: Rules, e: Event, p: Patch)
    requires Consistent(rules, e) && Update(rules, e, p).Ok?
    ensures var e' := Update(rules, e, p).value;
            && PatchedPlaylist(rules, e, p) == Ok((e'.playlistProvider, e'.playlistUrl))
            && e'.paymentProvider == Or(p.paymentProvider, e.paymentProvider)
            && e'.paymentIdentifier ==
                 (if p.paymentIdentifier.Some? && Trim(p.paymentIdentifier.value) != ""
                  then Some(Trim(p.paymentIdentifier.value)) else e.paymentIdentifier)
  {
    PatchedPlaylistStored(rules, e, p);
  }

  /** An accepted patch without any field changes no detail and no feature but the two optional ones. */
  lemma {:induction false} EmptyPatchKeeps(rules: Rules, e: Event)
    requires Consistent(rules, e) && Update(rules, e, Patch(None, None, None, None, None)).Ok?
    ensures var e' := Update(rules, e, Patch(None, None, None, None, None)).value;
            && DetailsOf(e') == DetailsOf(e)
            && (forall f :: f != PLAYLIST && f != PAYMENT ==> (f in e'.features <==> f in e.features))
  {
    var p := Patch(None, None, None, None, None);
    PatchStores(rules, e, p);
    StoredPlaylistIsNormal(rules, e.playlistProvider, e.playlistUrl);
    UpdatedWithoutFeatures(rules, e, p);
    SyncMeans(e.features, PatchDetails(rules, e, p).value);
  }

  datatype Op = Put(payload: Payload) | Change(patch: Patch)

  /** A refused request leaves the row as it is; the first accepted write creates it. */
  function After(rules: Rules, ops: seq<Op>): Option<Event> {
    if ops == [] then None
    else
      var before := After(rules, ops[..|ops| - 1]);
      match ops[|ops| - 1]
      case Put(payload) =>
        var r := Write(rules, payload);
        if r.Ok? then Some(r.value) else before
      case Change(patch) =>
        if before.None? then None
        else
          var r := Update(rules, before.value, patch);
          if r.Ok? then Some(r.value) else before
  }

  /** Over every run of creating, replacing and patching, stored features are distinct and allowed,
      the playlist columns are both set or both absent, and a listed playlist or payment feature has
      its details. */
  lemma {:induction false} AlwaysConsistent(rules: Rules, ops: seq<Op>)
    ensures After(rules, ops).Some? ==> Consistent(rules, After(rules, ops).value)
  {
    if ops != [] {
      AlwaysConsistent(rules, ops[..|ops| - 1]);
      var before := After(rules, ops[..|ops| - 1]);
      match ops[|ops| - 1]
      case Put(payload) => if Write(rules, payload).Ok? { WriteKeeps(rules, payload); }
      case Change(patch) =>
        if before.Some? && Update(rules, before.value, patch).Ok? { UpdateKeeps(rules, before.value, patch); }
    }
  }

  // ----- Where a patch and its row part -----

  /** The patch blanks an identifier that the row has. */
  predicate Blanks(e: Event, p: Patch) {
    p.paymentIdentifier.Some? && Trim(p.paymentIdentifier.value) == "" && e.paymentIdentifier.Some?
  }

  lemma {:induction false} UpdatedWithoutFeatures(rules: Rules, e: Event, p: Patch)
    requires Consistent(rules, e) && p.features.None? && Update(rules, e, p).Ok?
    ensures PatchDetails(rules, e, p).Ok?
    ensures var d := PatchDetails(rules, e, p).value;
            Update(rules, e, p).value == Patched(e, p, d, Sync(e.features, d))
  {
    SyncResolves(e.features, PatchDetails(rules, e, p).value);
  }

  lemma {:induction false} PatchedColumns(rules: Rules, e: Event, p: Patch, features: seq<string>)
    requires Consistent(rules, e) && PatchDetails(rules, e, p).Ok?
    ensures var d := PatchDetails(rules, e, p).value;
            var e' := Patched(e, p, d, features);
            && (d.Playlist() <==> e'.playlistProvider.Some?)
            && ((d.Payment() <==> e'.paymentIdentifier.Some?) <==> !Blanks(e, p))
  {
    PatchedPlaylistStored(rules, e, p);
    PatchedPaymentStored(rules, e, p);
    if PatchDetails(rules, e, p).value.playlistProvider.Some? {
      AllowedNames(PatchDetails(rules, e, p).value.playlistProvider.value);
    }
  }

  /** After an accepted patch without features the optional features say which details the row has,
      exactly when the patch does not blank a stored payment identifier: COALESCE keeps that one. */
  lemma {:induction false} PatchSyncsIff(rules: Rules, e: Event, p: Patch)
    requires Consistent(rules, e) && p.features.None? && Update(rules, e, p).Ok?
    ensures var e' := Update(rules, e, p).value;
            && (PLAYLIST in e'.features <==> e'.playlistProvider.Some?)
            && ((PAYMENT in e'.features <==> e'.paymentIdentifier.Some?) <==> !Blanks(e, p))
  {
    UpdatedWithoutFeatures(rules, e, p);
    var d := PatchDetails(rules, e, p).value;
    SyncMeans(e.features, d);
    PatchedColumns(rules, e, p, Sync(e.features, d));
  }

  /** The payment identifier a patch validated is the one stored, unless it was blanked. */
  lemma {:induction false} PatchedPaymentStored(rules: Rules, e: Event, p: Patch)
    requires Consistent(rules, e) && PatchDetails(rules, e, p).Ok?
    ensures var d := PatchDetails(rules, e, p).value;
            && (Or(d.paymentIdentifier, e.paymentIdentifier) == d.paymentIdentifier <==> !Blanks(e, p))
            && (d.Payment() <==> d.paymentIdentifier.Some?)
            && (Blanks(e, p) ==> d.paymentIdentifier.None?)
  {
  }

  /** The stored link is one its stored provider accepts. */
  predicate LinkMatches(rules: Rules, e: Event) {
    e.paymentProvider.Some? && e.paymentIdentifier.Some? ==> rules.paymentLink(e.paymentProvider.value, e.paymentIdentifier.value)
  }

  /** The patch blanks the identifier while naming a provider that does not accept the link that stays. */
  predicate Swaps(rules: Rules, e: Event, p: Patch) {
    && Blanks(e, p) && p.paymentProvider.Some?
    && !rules.paymentLink(p.paymentProvider.value, e.paymentIdentifier.value)
  }

  lemma {:induction false} LinkKeptIff(rules: Rules, e: Event, p: Patch)
    requires Consistent(rules, e) && LinkMatches(rules, e) && Update(rules, e, p).Ok?
    ensures LinkMatches(rules, Update(rules, e, p).value) <==> !Swaps(rules, e, p)
  {
  }

  lemma {:induction false} WriteLinks(rules: Rules, p: Payload)
    requires Write(rules, p).Ok?
    ensures LinkMatches(rules, Write(rules, p).value)
  {
  }

  predicate AlwaysLinked(rules: Rules, ops: seq<Op>) {
    && (After(rules, ops).Some? ==> LinkMatches(rules, After(rules, ops).value))
    && (ops == [] || AlwaysLinked(rules, ops[..|ops| - 1]))
  }

  /** No patch that swaps the provider under a link is accepted. */
  predicate NeverSwaps(rules: Rules, ops: seq<Op>) {
    ops == [] ||
    (var before, op := After(rules, ops[..|ops| - 1]), ops[|ops| - 1];
     && NeverSwaps(rules, ops[..|ops| - 1])
     && !(before.Some? && op.Change? && Update(rules, before.value, op.patch).Ok? && Swaps(rules, before.value, op.patch)))
  }

  /** Over every run of creating, replacing and patching, the stored link stays one that the stored
      provider accepts exactly when no patch that swaps the provider under it is accepted. */
  lemma {:induction false} AlwaysLinkedIff(rules: Rules, ops: seq<Op>)
    ensures AlwaysLinked(rules, ops) <==> NeverSwaps(rules, ops)
  {
    if ops != [] {
      var before, op := After(rules, ops[..|ops| - 1]), ops[|ops| - 1];
      AlwaysLinkedIff(rules, ops[..|ops| - 1]);
      AlwaysConsistent(rules, ops[..|ops| - 1]);
      match op
      case Put(payload) => if Write(rules, payload).Ok? { WriteLinks(rules, payload); }
      case Change(patch) =>
        if before.Some? && LinkMatches(rules, before.value) && Update(rules, before.value, patch).Ok? {
          LinkKeptIff(rules, before.value, patch);
        }
    }
  }

  lemma {:induction false} MismatchBlocksPatches(rules: Rules, e: Event, p: Patch)
    requires Consistent(rules, e) && !LinkMatches(rules, e)
    requires p.paymentProvider.None? && p.paymentIdentifier.None?
    ensures Update(rules, e, p).Err?
  {
  }

  /** A patch that names neither payment column. */
  predicate Unpaid(op: Op) {
    op.Change? && op.patch.paymentProvider.None? && op.patch.paymentIdentifier.None?
  }

  /** Once the stored link does not match, all patches that name neither payment column are refused,
      however many there are: the row stays as it is until a request names one. */
  lemma {:induction false} StuckUntilNamed(rules: Rules, ops: seq<Op>, more: seq<Op>)
    requires After(rules, ops).Some? && !LinkMatches(rules, After(rules, ops).value)
    requires forall op :: op in more ==> Unpaid(op)
    ensures After(rules, ops + more) == After(rules, ops)
  {
    if more == [] {
      assert ops + more == ops;
    } else {
      var before, op := more[..|more| - 1], more[|more| - 1];
      assert op in more && forall o :: o in before ==> o in more;
      StuckUntilNamed(rules, ops, before);
      assert (ops + more)[..|ops + more| - 1] == ops + before;
      AlwaysConsistent(rules, ops);
      MismatchBlocksPatches(rules, After(rules, ops).value, op.patch);
    }
  }

  /** The excepted patch is accepted: it names a provider that refuses the link and blanks the
      identifier, and from then on a patch without any field is refused. */
  lemma {:induction false} LinkLost(rules: Rules, link: string)
    requires rules.known(2) && Clean(link) && rules.paymentLink(1, link) && !rules.paymentLink(2, link)
    ensures var e := Event(["polls", PAYMENT], None, None, Some(1), Some(link));
            var none := Patch(None, None, None, None, None);
            var r := Update(rules, e, none.(paymentProvider := Some(2), paymentIdentifier := Some(" ")));
            && Consistent(rules, e) && LinkMatches(rules, e)
            && r.Ok? && !LinkMatches(rules, r.value) && Update(rules, r.value, none).Err?
  {
    var e := Event(["polls", PAYMENT], None, None, Some(1), Some(link));
    var none := Patch(None, None, None, None, None);
    var swap := none.(paymentProvider := Some(2), paymentIdentifier := Some(" "));
    assert Trim(" ") == "";
    PatchWithoutFeatures(rules, e, swap);
    UpdateKeeps(rules, e, swap);
    PatchStores(rules, e, swap);
    MismatchBlocksPatches(rules, Update(rules, e, swap).value, none);
  }

  /** Blanking the identifier hides the payment feature, and the next patch brings it back. */
  lemma {:induction false} BlankIdentifierReturns(rules: Rules, link: string)
    requires rules.known(1) && Clean(link) && rules.paymentLink(1, link)
    ensures var e := Event(["polls", PAYMENT], None, None, Some(1), Some(link));
            var none := Patch(None, None, None, None, None);
            && Consistent(rules, e)
            && var r := Update(rules, e, none.(paymentIdentifier := Some(" ")));
            && r.Ok? && PAYMENT !in r.value.features && r.value.paymentIdentifier == Some(link)
            && var again := Update(rules, r.value, none);
            && again.Ok? && PAYMENT in again.value.features
  {
    var e := Event(["polls", PAYMENT], None, None, Some(1), Some(link));
    var none := Patch(None, None, None, None, None);
    var blank := none.(paymentIdentifier := Some(" "));
    assert Trim(" ") == "";
    PatchWithoutFeatures(rules, e, blank);
    var e1 := Update(rules, e, blank).value;
    SyncMeans(e.features, PatchDetails(rules, e, blank).value);
    UpdateKeeps(rules, e, blank);
    PatchWithoutFeatures(rules, e1, none);
    SyncMeans(e1.features, PatchDetails(rules, e1, none).value);
  }

  // ----- In place -----

  method NormalizeEnabledFeatures(features: seq<string>) returns (result: Result<seq<string>, Error>)
    ensures result == Normalized(features)
  {
    var seen, normalized: seq<string> := {}, [];
    for i := 0 to |features|
      invariant Normalized(features[..i]) == Ok(normalized)
      invariant forall v :: v in seen <==> v in normalized
    {
      assert features[..i + 1][..i] == features[..i];
      var value := Name(features[i]);
      if value == "" { continue; }
      if value !in ALLOWED {
        RefusedEarly(features, i + 1);
        return Err(InvalidFeatures);
      }
      if value !in seen {
        seen := seen + {value};
        normalized := normalized + [value];
      }
    }
    assert features[..|features|] == features;
    result := Ok(normalized);
  }

  /** A refusal stands whatever follows. */
  lemma {:induction false} RefusedEarly(features: seq<string>, n: nat)
    requires n <= |features| && Normalized(features[..n]).Err?
    ensures Normalized(features) == Err(InvalidFeatures)
    decreases |features|
  {
    if n < |features| {
      assert features[..|features| - 1][..n] == features[..n];
      RefusedEarly(features[..|features| - 1], n);
    } else {
      assert features[..n] == features;
      RefusedIsInvalid(features);
    }
  }

  lemma {:induction false} RefusedIsInvalid(features: seq<string>)
    ensures Normalized(features).Err? ==> Normalized(features) == Err(InvalidFeatures)
  {
    if features != [] { RefusedIsInvalid(features[..|features| - 1]); }
  }

  method AppendFeature(features: seq<string>, feature: string) returns (appended: seq<string>)
    ensures appended == Append(features, feature)
  {
    appended := features;
    if feature !in appended {
      appended := appended + [feature];
    }
  }

  method Retain(features: seq<string>, dropped: string) returns (kept: seq<string>)
    ensures kept == Without(features, dropped)
  {
    kept := [];
    for i := 0 to |features|
      invariant kept == Without(features[..i], dropped)
    {
      assert features[..i + 1][..i] == features[..i];
      if features[i] != dropped {
        kept := kept + [features[i]];
      }
    }
    assert features[..|features|] == features;
  }

  method SyncOptionalFeatures(features: seq<string>, d: Details) returns (synced: seq<string>)
    ensures synced == Sync(features, d)
  {
    if d.Playlist() {
      synced := AppendFeature(features, PLAYLIST);
    } else {
      synced := Retain(features, PLAYLIST);
    }
    if d.Payment() {
      synced := AppendFeature(synced, PAYMENT);
    } else {
      synced := Retain(synced, PAYMENT);
    }
  }
}
