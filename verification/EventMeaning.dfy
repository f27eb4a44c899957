/** Which events and patches are accepted, and what is stored, told by the texts a client sends. */
module EventMeaning {
  import opened Options
  import opened EventFeatures

  // ----- Texts -----

  /** `t` is `s` from `i` to `j`, with blanks before and after and none at its own ends. */
  ghost predicate Cut(s: string, t: string, i: nat, j: nat) {
    && i <= j <= |s| && t == s[i..j]
    && (forall k :: 0 <= k < i ==> IsBlank(s[k])) && (forall k :: j <= k < |s| ==> IsBlank(s[k]))
    && (i < j ==> !IsBlank(s[i]) && !IsBlank(s[j - 1]))
  }

  lemma {:induction false} CutFirst(s: string, t: string, i: nat, j: nat)
    requires s != "" && IsBlank(s[0]) && Cut(s[1..], t, i, j)
    ensures Cut(s, t, i + 1, j + 1)
  {
    assert forall k :: 1 <= k < |s| ==> s[k] == s[1..][k - 1];
    assert s[1..][i..j] == s[i + 1..j + 1];
  }

  lemma {:induction false} CutLast(s: string, t: string, i: nat, j: nat)
    requires s != "" && IsBlank(s[|s| - 1]) && Cut(s[..|s| - 1], t, i, j)
    ensures Cut(s, t, i, j)
  {
    var before := s[..|s| - 1];
    assert forall k :: 0 <= k < |before| ==> before[k] == s[k];
    assert before[i..j] == s[i..j];
  }

  /** Trimming cuts blanks, and only blanks, off both ends. */
  lemma {:induction false} TrimCuts(s: string) returns (i: nat, j: nat)
    ensures Cut(s, Trim(s), i, j)
  {
    if s == "" {
      i, j := 0, 0;
    } else if IsBlank(s[0]) {
      i, j := TrimCuts(s[1..]);
      CutFirst(s, Trim(s), i, j);
      i, j := i + 1, j + 1;
    } else if IsBlank(s[|s| - 1]) {
      i, j := TrimCuts(s[..|s| - 1]);
      CutLast(s, Trim(s), i, j);
    } else {
      i, j := 0, |s|;
    }
  }

  /** Lower-casing moves each capital to the small letter at its place, and leaves the rest. */
  lemma {:induction false} LowerMeans(s: string, k: nat)
    requires k < |s|
    ensures |Lower(s)| == |s|
    ensures if 'A' <= s[k] <= 'Z' then Lower(s)[k] as int - 'a' as int == s[k] as int - 'A' as int else Lower(s)[k] == s[k]
  {
  }

  predicate Given(text: Option<string>) { text.Some? && Trim(text.value) != "" }

  // ----- What is acceptable -----

  /** No playlist, or a known provider in any case with a link it accepts. */
  predicate PlaylistFits(rules: Rules, provider: Option<string>, url: Option<string>) {
    && (Given(provider) <==> Given(url))
    && (Given(provider) ==>
          && (Name(provider.value) == "spotify" || Name(provider.value) == "apple_music" || Name(provider.value) == "deezer")
          && rules.playlistUrl(Name(provider.value), Trim(url.value)))
  }

  /** A provider that exists, if there is one, and a link only with a provider that accepts it. */
  predicate PaymentFits(rules: Rules, provider: Option<int>, identifier: Option<string>) {
    && (provider.Some? ==> rules.known(provider.value))
    && (Given(identifier) ==> provider.Some? && rules.paymentLink(provider.value, Trim(identifier.value)))
  }

  predicate IsFeature(name: string) {
    || name == "carpools" || name == "polls" || name == "items" || name == "ticketing"
    || name == "playlist" || name == "payment" || name == "expenses"
  }

  /** Only known features are listed, and the two that need details only with them. */
  ghost predicate FeaturesFit(features: seq<string>, playlist: bool, payment: bool) {
    && (forall f :: f in features ==> Name(f) == "" || IsFeature(Name(f)))
    && (IsNamed(features, "playlist") ==> playlist) && (IsNamed(features, "payment") ==> payment)
  }

  lemma {:induction false} NameIsBlank(s: string)
    ensures Name(s) == "" <==> Trim(s) == ""
  {
    assert |Name(s)| == |Trim(s)|;
  }

  lemma {:induction false} TrimAgain(s: string)
    ensures Trim(Trim(s)) == Trim(s)
  {
  }

  lemma {:induction false} PlaylistNormalised(rules: Rules, provider: Option<string>, url: Option<string>)
    ensures var r := NormalizePlaylist(rules, provider, url);
            && (r.Ok? <==> PlaylistFits(rules, provider, url))
            && (r.Ok? ==> r.value == if Given(url) then (Some(Name(provider.value)), Some(Trim(url.value))) else (None, None))
            && (r.Ok? ==> (HasPlaylist(r.value.0, r.value.1) <==> Given(url)))
  {
    if provider.Some? { NameIsBlank(provider.value); }
    if url.Some? { TrimAgain(url.value); }
    if Given(provider) && Name(provider.value) in PROVIDERS { AllowedNames(Name(provider.value)); }
  }

  lemma {:induction false} PaymentNormalised(rules: Rules, provider: Option<int>, identifier: Option<string>)
    ensures var r := NormalizePayment(rules, provider, identifier);
            && (PaymentFits(rules, provider, identifier) <==> r.Ok? && (provider.Some? ==> rules.known(provider.value)))
            && (r.Ok? ==> r.value == (provider, if Given(identifier) then Some(Trim(identifier.value)) else None))
            && (r.Ok? ==> (HasPayment(r.value.0, r.value.1) <==> Given(identifier)))
  {
    if identifier.Some? { TrimAgain(identifier.value); }
  }

  lemma {:induction false} ResolvedIff(features: seq<string>, d: Details)
    ensures var r := Resolve(Some(features), d);
            && (r.Ok? <==> FeaturesFit(features, d.Playlist(), d.Payment()))
            && (r.Ok? ==> forall f :: f in r.value <==> IsNamed(features, f))
  {
    NormalizedAccepts(features);
    if Normalized(features).Ok? { NormalizedMeans(features); }
  }

  lemma {:induction false} DefaultsResolved(d: Details)
    ensures var r := Resolve(None, d);
            && r.Ok?
            && (forall f :: f in r.value <==>
                  (f == "carpools" || f == "polls" || f == "items" || (f == "playlist" && d.Playlist()) || (f == "payment" && d.Payment())))
  {
  }

  // ----- What a refusal says -----

  /** The first thing wrong with the payment. */
  lemma {:induction false} PaymentRefusal(rules: Rules, provider: Option<int>, identifier: Option<string>)
    ensures var r := NormalizePayment(rules, provider, identifier);
            && (r == Err(InvalidPayload) <==> Given(identifier) && provider.None?)
            && (r == Err(UnknownPaymentProvider) <==> Given(identifier) && provider.Some? && !rules.known(provider.value))
            && (r == Err(InvalidPaymentLink) <==>
                  (Given(identifier) && provider.Some? && rules.known(provider.value) &&
                   !rules.paymentLink(provider.value, Trim(identifier.value))))
  {
  }

  /** The first thing wrong with the playlist. */
  lemma {:induction false} PlaylistRefusal(rules: Rules, provider: Option<string>, url: Option<string>)
    ensures var r := NormalizePlaylist(rules, provider, url);
            && (r == Err(InvalidPlaylist) <==> Given(provider) != Given(url))
            && (r == Err(InvalidPlaylistProvider) <==> Given(provider) && Given(url) && Name(provider.value) !in PROVIDERS)
            && (r == Err(InvalidPlaylistUrl) <==>
                  (Given(provider) && Given(url) && Name(provider.value) in PROVIDERS &&
                   !rules.playlistUrl(Name(provider.value), Trim(url.value))))
  {
    if provider.Some? { NameIsBlank(provider.value); }
  }

  lemma {:induction false} FeatureRefusal(requested: Option<seq<string>>, d: Details)
    ensures Resolve(requested, d).Err? ==> Resolve(requested, d) == Err(InvalidFeatures)
  {
    if requested.Some? { RefusedIsInvalid(requested.value); } else { DefaultsResolved(d); }
  }

  /** An event is refused for its payment first, then its playlist, then its features, and last for a
      payment provider that does not exist. */
  lemma {:induction false} WriteRefusal(rules: Rules, p: Payload)
    requires Write(rules, p).Err?
    ensures var error := Write(rules, p).error;
            var payment := NormalizePayment(rules, p.paymentProvider, p.paymentIdentifier);
            var playlist := NormalizePlaylist(rules, p.playlistProvider, p.playlistUrl);
            if payment.Err? then payment == Err(error)
            else if playlist.Err? then playlist == Err(error)
            else if p.features.Some? && !FeaturesFit(p.features.value, Given(p.playlistUrl), Given(p.paymentIdentifier))
            then error == InvalidFeatures
            else error == UnknownPaymentProvider
  {
    PaymentNormalised(rules, p.paymentProvider, p.paymentIdentifier);
    PlaylistNormalised(rules, p.playlistProvider, p.playlistUrl);
    var payment := NormalizePayment(rules, p.paymentProvider, p.paymentIdentifier);
    var playlist := NormalizePlaylist(rules, p.playlistProvider, p.playlistUrl);
    if payment.Ok? && playlist.Ok? {
      var d := Details(playlist.value.0, playlist.value.1, payment.value.0, payment.value.1);
      FeatureRefusal(p.features, d);
      if p.features.Some? { ResolvedIff(p.features.value, d); } else { DefaultsResolved(d); }
    }
  }

  /** A patch in the same order; clearing one playlist column alone is refused as half a playlist. */
  lemma {:induction false} PatchRefusal(rules: Rules, e: Event, p: Patch)
    requires Consistent(rules, e) && Update(rules, e, p).Err?
    ensures var error := Update(rules, e, p).error;
            var (playlist, payment) := (PlaylistAfter(e, p), PaymentAfter(e, p));
            if NormalizePayment(rules, payment.0, payment.1).Err? then NormalizePayment(rules, payment.0, payment.1) == Err(error)
            else if HalfCleared(p) then error == InvalidPlaylist
            else if NormalizePlaylist(rules, playlist.0, playlist.1).Err? then NormalizePlaylist(rules, playlist.0, playlist.1) == Err(error)
            else if p.features.Some? && !FeaturesFit(p.features.value, Given(playlist.1), Given(payment.1)) then error == InvalidFeatures
            else error == UnknownPaymentProvider
  {
    PatchedPlaylistIff(rules, e, p);
    PaymentNormalised(rules, PaymentAfter(e, p).0, PaymentAfter(e, p).1);
    if PatchDetails(rules, e, p).Ok? {
      var d := PatchDetails(rules, e, p).value;
      if p.features.Some? {
        FeatureRefusal(p.features, d);
        ResolvedIff(p.features.value, d);
      } else {
        SyncResolves(e.features, d);
      }
    }
  }

  // ----- Creating and replacing -----

  /** An event is accepted exactly when its payment, its playlist and its list of features, if it has one,
      are acceptable. */
  lemma {:induction false} WriteIff(rules: Rules, p: Payload)
    ensures Write(rules, p).Ok? <==>
              (&& PaymentFits(rules, p.paymentProvider, p.paymentIdentifier)
               && PlaylistFits(rules, p.playlistProvider, p.playlistUrl)
               && (p.features.Some? ==> FeaturesFit(p.features.value, Given(p.playlistUrl), Given(p.paymentIdentifier))))
  {
    PaymentNormalised(rules, p.paymentProvider, p.paymentIdentifier);
    PlaylistNormalised(rules, p.playlistProvider, p.playlistUrl);
    var payment := NormalizePayment(rules, p.paymentProvider, p.paymentIdentifier);
    var playlist := NormalizePlaylist(rules, p.playlistProvider, p.playlistUrl);
    if payment.Ok? && playlist.Ok? {
      var d := Details(playlist.value.0, playlist.value.1, payment.value.0, payment.value.1);
      if p.features.Some? { ResolvedIff(p.features.value, d); } else { DefaultsResolved(d); }
    }
  }

  /** It is stored with trimmed links, a lower-case playlist provider, and the features it lists; without
      a list with carpools, polls and items, and with playlist and payment as far as it has the details. */
  lemma {:induction false} WriteStores(rules: Rules, p: Payload)
    requires Write(rules, p).Ok?
    ensures var e := Write(rules, p).value;
            && e.playlistProvider == (if Given(p.playlistUrl) then Some(Name(p.playlistProvider.value)) else None)
            && e.playlistUrl == (if Given(p.playlistUrl) then Some(Trim(p.playlistUrl.value)) else None)
            && e.paymentProvider == p.paymentProvider
            && e.paymentIdentifier == (if Given(p.paymentIdentifier) then Some(Trim(p.paymentIdentifier.value)) else None)
            && (forall f :: f in e.features <==>
                  match p.features
                  case Some(list) => IsNamed(list, f)
                  case None =>
                    (f == "carpools" || f == "polls" || f == "items" ||
                     (f == "playlist" && Given(p.playlistUrl)) || (f == "payment" && Given(p.paymentIdentifier))))
  {
    PaymentNormalised(rules, p.paymentProvider, p.paymentIdentifier);
    PlaylistNormalised(rules, p.playlistProvider, p.playlistUrl);
    var payment := NormalizePayment(rules, p.paymentProvider, p.paymentIdentifier).value;
    var playlist := NormalizePlaylist(rules, p.playlistProvider, p.playlistUrl).value;
    var d := Details(playlist.0, playlist.1, payment.0, payment.1);
    if p.features.Some? { ResolvedIff(p.features.value, d); } else { DefaultsResolved(d); }
  }

  // ----- Patching -----

  /** The playlist provider and link that hold after the patch, before they are normalised. */
  function PlaylistAfter(e: Event, p: Patch): (Option<string>, Option<string>) {
    (match p.playlistProvider case Some(provider) => provider case None => e.playlistProvider,
     match p.playlistUrl case Some(url) => url case None => e.playlistUrl)
  }

  function PaymentAfter(e: Event, p: Patch): (Option<int>, Option<string>) {
    (match p.paymentProvider case Some(provider) => Some(provider) case None => e.paymentProvider,
     match p.paymentIdentifier case Some(identifier) => Some(identifier) case None => e.paymentIdentifier)
  }

  /** One playlist column is set to null and the other is not. */
  predicate HalfCleared(p: Patch) {
    (p.playlistProvider == Some(None)) != (p.playlistUrl == Some(None))
  }

  lemma {:induction false} PatchedPlaylistIff(rules: Rules, e: Event, p: Patch)
    ensures var (provider, url) := PlaylistAfter(e, p);
            var r := PatchedPlaylist(rules, e, p);
            && (r.Ok? <==> !HalfCleared(p) && PlaylistFits(rules, provider, url))
            && (r.Ok? ==> (HasPlaylist(r.value.0, r.value.1) <==> Given(url)))
  {
    PlaylistNormalised(rules, PlaylistAfter(e, p).0, PlaylistAfter(e, p).1);
  }

  /** A patch is accepted exactly when it does not clear one playlist column alone, the payment and the
      playlist that hold after it are acceptable, and so is its list of features, if it has one. */
  lemma {:induction false} PatchIff(rules: Rules, e: Event, p: Patch)
    requires Consistent(rules, e)
    ensures var (playlist, payment) := (PlaylistAfter(e, p), PaymentAfter(e, p));
            Update(rules, e, p).Ok? <==>
              (&& !HalfCleared(p) && PlaylistFits(rules, playlist.0, playlist.1) && PaymentFits(rules, payment.0, payment.1)
               && (p.features.Some? ==> FeaturesFit(p.features.value, Given(playlist.1), Given(payment.1))))
  {
    PatchedPlaylistIff(rules, e, p);
    PaymentNormalised(rules, PaymentAfter(e, p).0, PaymentAfter(e, p).1);
    if PatchDetails(rules, e, p).Ok? {
      var d := PatchDetails(rules, e, p).value;
      if p.features.Some? { ResolvedIff(p.features.value, d); } else { SyncResolves(e.features, d); }
    }
  }

  /** The features after an accepted patch: the ones it lists; without a list the old ones, with playlist
      and payment as the details that hold after it say. */
  lemma {:induction false} PatchStoresFeatures(rules: Rules, e: Event, p: Patch, f: string)
    requires Consistent(rules, e) && Update(rules, e, p).Ok?
    ensures f in Update(rules, e, p).value.features <==>
              match p.features
              case Some(list) => IsNamed(list, f)
              case None =>
                if f == "playlist" then Given(PlaylistAfter(e, p).1)
                else if f == "payment" then Given(PaymentAfter(e, p).1)
                else f in e.features
  {
    PatchedPlaylistIff(rules, e, p);
    PaymentNormalised(rules, PaymentAfter(e, p).0, PaymentAfter(e, p).1);
    var d := PatchDetails(rules, e, p).value;
    if p.features.Some? {
      ResolvedIff(p.features.value, d);
    } else {
      SyncResolves(e.features, d);
      SyncMeans(e.features, d);
    }
  }
}
