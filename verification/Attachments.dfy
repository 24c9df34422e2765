/**
 Attachments of services/matrix-gateway/src/attachments.rs: `resolve_media_metadata`, which
 completes observed attachments at ingest, and `handle_request`, which releases bytes under a
 check, fetch, check-again protocol over a store that may change at any time.

 Hashing, derived event ids, timestamps, media types and event validation are parameters; the
 nine fields under which a descriptor is stored are one address.
 */
module Attachments {
  import opened Wrappers
  import opened Texts
  import opened Sequences

  type Byte = x: int | 0 <= x < 256

  type Bytes = seq<Byte>

  const MAX_MEDIA_BYTES: nat := 8 * 1024 * 1024

  datatype Address = Address(
    tenant: string, account: string, connection: string, identity: string, conversation: string,
    message: string, attachment: string, revision: string, provider: string)

  datatype Descriptor = Descriptor(
    address: Address, room: string, fileName: Option<string>,
    mime: Option<string>, size: Option<nat>, sha: Option<string>, media: string)

  datatype Payload =
    | Observed(attachment: string, message: string, fileName: Option<string>,
               mime: Option<string>, size: Option<nat>, sha: Option<string>, key: Option<string>)
    | Other(text: string)

  datatype Event = Event(id: string, observedAt: string, payload: Payload, envelope: string)

  datatype Routed = Routed(route: string, event: Event)

  datatype Fetch = FetchFailed(reason: string) | Fetched(bytes: Bytes, mime: string)

  /** Code that the gateway calls. */
  datatype Environment = Environment(
    digest: Bytes -> string,
    revise: string -> Option<string>,
    later: string -> Option<string>,
    validMime: string -> bool,
    validEvent: Event -> bool)

  predicate Admits<T(==)>(expected: Option<T>, actual: T) {
    expected.None? || expected.value == actual
  }

  // ---- Media keys

  predicate IsLower(c: char) { 'a' <= c <= 'z' }

  predicate IsIdSuffix(c: char) { IsLower(c) || '0' <= c <= '9' || c == '_' }

  /** A lower-case prefix, an underscore and a non-empty suffix. */
  predicate ValidResourceId(s: string) {
    |s| <= 128 && exists k :: 0 < k < |s| - 1 && SplitsKind(s, k)
  }

  predicate SplitsKind(s: string, k: nat)
    requires k < |s|
  {
    s[k] == '_' && (forall i :: 0 <= i < k ==> IsLower(s[i])) && (forall i :: k < i < |s| ==> IsIdSuffix(s[i]))
  }

  predicate ValidHexHash(s: string) {
    |s| == 64 && forall i :: 0 <= i < |s| ==> '0' <= s[i] <= '9' || 'a' <= s[i] <= 'f'
  }

  /** An ASCII letter in lower case, and a digit. */
  predicate Letter(c: char) { 97 <= c as int <= 122 }

  predicate Digit(c: char) { 48 <= c as int <= 57 }

  /** The string is a kind in letters, an underscore and a name in letters, digits and underscores. */
  ghost predicate ResourceId(s: string, kind: string, name: string) {
    && s == kind + ['_'] + name && kind != "" && name != ""
    && (forall i :: 0 <= i < |kind| ==> Letter(kind[i]))
    && (forall i :: 0 <= i < |name| ==> Letter(name[i]) || Digit(name[i]) || name[i] == '_')
  }

  lemma ValidResourceIdIff(s: string)
    ensures ValidResourceId(s) <==> |s| <= 128 && exists kind, name :: ResourceId(s, kind, name)
  {
    if ValidResourceId(s) {
      var k :| 0 < k < |s| - 1 && SplitsKind(s, k);
      KindAndName(s, k);
    }
    if kind, name :| ResourceId(s, kind, name) && |s| <= 128 { KindSplits(s, kind, name); }
  }

  lemma KindAndName(s: string, k: nat)
    requires 0 < k < |s| - 1 && SplitsKind(s, k)
    ensures ResourceId(s, s[..k], s[k + 1..])
  {
    var kind, name := s[..k], s[k + 1..];
    assert s == kind + ['_'] + name;
    assert forall i :: 0 <= i < |kind| ==> kind[i] == s[i];
    forall i | 0 <= i < |name| ensures Letter(name[i]) || Digit(name[i]) || name[i] == '_' {
      assert name[i] == s[i + k + 1];
    }
  }

  lemma KindSplits(s: string, kind: string, name: string)
    requires ResourceId(s, kind, name)
    ensures 0 < |kind| < |s| - 1 && SplitsKind(s, |kind|)
  {
    var k := |kind|;
    assert forall i :: 0 <= i < k ==> s[i] == kind[i];
    forall i | k < i < |s| ensures IsIdSuffix(s[i]) { assert s[i] == name[i - k - 1]; }
  }

  lemma ValidHexHashIff(s: string)
    ensures ValidHexHash(s) <==> |s| == 64 && forall i :: 0 <= i < |s| ==> Digit(s[i]) || 97 <= s[i] as int <= 102
  {
  }

  function MediaKey(tenant: string, hash: string): (key: string) {
    "media" + ['/'] + tenant + ['/'] + hash
  }

  function ParseMediaKey(key: string): (r: Option<(string, string)>) {
    var parts := Split(key, '/');
    if |parts| == 3 && parts[0] == "media" && ValidResourceId(parts[1]) && ValidHexHash(parts[2])
    then Some((parts[1], parts[2])) else None
  }

  lemma NoSlash(tenant: string, hash: string)
    requires ValidResourceId(tenant) && ValidHexHash(hash)
    ensures '/' !in tenant && '/' !in hash
  {
    var k :| 0 < k < |tenant| - 1 && SplitsKind(tenant, k);
    forall i | 0 <= i < |tenant| ensures tenant[i] != '/' {
      if i < k { assert IsLower(tenant[i]); } else if i > k { assert IsIdSuffix(tenant[i]); }
    }
  }

  /** The parser accepts exactly the keys that are built, and takes them apart again. */
  lemma MediaKeyRoundTrip(key: string, tenant: string, hash: string)
    ensures ParseMediaKey(key) == Some((tenant, hash)) <==>
            key == MediaKey(tenant, hash) && ValidResourceId(tenant) && ValidHexHash(hash)
  {
    var parts := ["media", tenant, hash];
    assert parts[1..] == [tenant, hash] && parts[1..][1..] == [hash];
    assert Join(parts[1..], '/') == tenant + ['/'] + hash;
    assert Join(parts, '/') == MediaKey(tenant, hash);
    if ParseMediaKey(key) == Some((tenant, hash)) {
      SplitParts(key, '/');
      assert Split(key, '/') == parts;
    }
    if key == MediaKey(tenant, hash) && ValidResourceId(tenant) && ValidHexHash(hash) {
      NoSlash(tenant, hash);
      SplitJoin(parts, '/');
    }
  }

  // ---- Ingest: one descriptor

  datatype Outcome =
    | Fatal(descriptor: Descriptor)
    | Kept(descriptor: Descriptor)
    | Resolved(descriptor: Descriptor, event: Routed)

  function Find(routed: seq<Routed>, attachment: string): (r: Option<Routed>)
    ensures r.Some? ==>
              r.value in routed && r.value.event.payload.Observed? && r.value.event.payload.attachment == attachment
  {
    if routed == [] then None
    else if routed[0].event.payload.Observed? && routed[0].event.payload.attachment == attachment then Some(routed[0])
    else Find(routed[1..], attachment)
  }

  predicate Admitted(d: Descriptor, f: Fetch, env: Environment)
    requires f.Fetched?
  {
    env.validMime(f.mime) && Admits(d.size, |f.bytes|) && Admits(d.mime, f.mime) && Admits(d.sha, env.digest(f.bytes))
  }

  predicate PayloadAdmits(p: Payload, f: Fetch, env: Environment)
    requires p.Observed? && f.Fetched?
  {
    Admits(p.sha, env.digest(f.bytes)) && Admits(p.size, |f.bytes|) && Admits(p.mime, f.mime)
  }

  function WithMetadata(d: Descriptor, f: Fetch, env: Environment): (r: Descriptor)
    requires f.Fetched?
  {
    d.(size := Some(|f.bytes|), mime := Some(f.mime), sha := Some(env.digest(f.bytes)))
  }

  function ResolveOne(routed: seq<Routed>, d: Descriptor, f: Fetch, env: Environment): (o: Outcome) {
    var found := Find(routed, d.address.attachment);
    if found.None? then Fatal(d)
    else if f.FetchFailed? || !Admitted(d, f, env) then Kept(d)
    else
      var filled := WithMetadata(d, f, env);
      var revision := env.revise(d.address.revision);
      if revision.None? then Fatal(filled)
      else
        var revised := filled.(address := d.address.(revision := revision.value));
        var event := found.value.event;
        if !PayloadAdmits(event.payload, f, env) then Kept(revised)
        else
          var observedAt := env.later(event.observedAt);
          if observedAt.None? then Fatal(revised)
          else
            var payload := event.payload.(
              size := Some(|f.bytes|), mime := Some(f.mime), sha := Some(env.digest(f.bytes)),
              key := Some(MediaKey(d.address.tenant, env.digest(f.bytes))));
            var resolved := event.(id := revision.value, observedAt := observedAt.value, payload := payload);
            if !env.validEvent(resolved) then Fatal(revised)
            else Resolved(revised, Routed(found.value.route, resolved))
  }

  // ---- Ingest: the loop

  datatype Ingest = Ingest(ok: bool, descriptors: seq<Descriptor>, events: seq<Routed>)

  function Outcomes(routed: seq<Routed>, ds: seq<Descriptor>, fs: seq<Fetch>, env: Environment): (os: seq<Outcome>)
    requires |ds| == |fs|
    ensures |os| == |ds|
  {
    seq(|ds|, i requires 0 <= i < |ds| => ResolveOne(routed, ds[i], fs[i], env))
  }

  /** The first `n` outcomes taken in order, up to the first fatal one. */
  function Taken(ds: seq<Descriptor>, os: seq<Outcome>, n: nat): (r: Ingest)
    requires n <= |ds| == |os|
    ensures |r.descriptors| == |ds|
  {
    if n == 0 then Ingest(true, ds, [])
    else
      var before := Taken(ds, os, n - 1);
      if !before.ok then before
      else
        var o := os[n - 1];
        Ingest(!o.Fatal?, before.descriptors[n - 1 := o.descriptor],
               if o.Resolved? then before.events + [o.event] else before.events)
  }

  function Ingested(routed: seq<Routed>, ds: seq<Descriptor>, fs: seq<Fetch>, env: Environment): (r: Ingest)
    requires |ds| == |fs|
    ensures |r.descriptors| == |ds|
  {
    Taken(ds, Outcomes(routed, ds, fs, env), |ds|)
  }

  lemma {:induction false} LaterUntouched(ds: seq<Descriptor>, os: seq<Outcome>, n: nat)
    requires n <= |ds| == |os|
    ensures forall i :: n <= i < |ds| ==> Taken(ds, os, n).descriptors[i] == ds[i]
  {
    if n > 0 { LaterUntouched(ds, os, n - 1); }
  }

  lemma {:induction false} FailureStays(ds: seq<Descriptor>, os: seq<Outcome>, n: nat, m: nat)
    requires n <= m <= |ds| == |os| && !Taken(ds, os, n).ok
    ensures Taken(ds, os, m) == Taken(ds, os, n)
  {
    if n < m { FailureStays(ds, os, n, m - 1); }
  }

  /** The ingest loop: descriptors change in place, new events go behind the old ones, and a
      failure leaves the events alone. */
  method ResolveMediaMetadata(routed: seq<Routed>, descriptors: array<Descriptor>, fs: seq<Fetch>, env: Environment)
    returns (ok: bool, after: seq<Routed>)
    requires descriptors.Length == |fs|
    modifies descriptors
    ensures var r := Ingested(routed, old(descriptors[..]), fs, env);
            descriptors[..] == r.descriptors && ok == r.ok && after == if r.ok then routed + r.events else routed
  {
    ghost var ds := descriptors[..];
    ghost var os := Outcomes(routed, ds, fs, env);
    var resolved: seq<Routed> := [];
    for n := 0 to descriptors.Length
      invariant descriptors[..] == Taken(ds, os, n).descriptors
      invariant Taken(ds, os, n).ok && resolved == Taken(ds, os, n).events
    {
      LaterUntouched(ds, os, n);
      assert descriptors[n] == descriptors[..][n] == ds[n];
      var o := ResolveOne(routed, descriptors[n], fs[n], env);
      assert o == os[n];
      descriptors[n] := o.descriptor;
      if o.Resolved? { resolved := resolved + [o.event]; }
      if o.Fatal? {
        FailureStays(ds, os, n + 1, |fs|);
        return false, routed;
      }
    }
    return true, routed + resolved;
  }

  // ---- What ingest promises

  /** What the projection states of the media, the descriptor states too. */
  predicate StatesNoMore(p: Payload, d: Descriptor)
    requires p.Observed?
  {
    && (p.sha.Some? ==> p.sha == d.sha)
    && (p.size.Some? ==> p.size == d.size)
    && (p.mime.Some? ==> p.mime == d.mime)
  }

  /** The projection that belongs to the descriptor states no more than it. */
  predicate Agree(routed: seq<Routed>, d: Descriptor) {
    var found := Find(routed, d.address.attachment);
    found.Some? ==> StatesNoMore(found.value.event.payload, d)
  }

  /** The event announces these bytes under the descriptor's revision. */
  ghost predicate Announces(event: Event, d: Descriptor, f: Fetch, env: Environment) {
    && f.Fetched? && event.payload.Observed?
    && event.id == d.address.revision && event.payload.attachment == d.address.attachment
    && event.payload.sha == d.sha == Some(env.digest(f.bytes))
    && event.payload.size == d.size == Some(|f.bytes|)
    && event.payload.mime == d.mime == Some(f.mime)
    && event.payload.key == Some(MediaKey(d.address.tenant, env.digest(f.bytes)))
    && env.validMime(f.mime)
  }

  /** With agreeing metadata a descriptor changes only together with its event. */
  lemma ResolvedOrUntouched(routed: seq<Routed>, d: Descriptor, f: Fetch, env: Environment)
    requires Agree(routed, d)
    ensures var o := ResolveOne(routed, d, f, env);
            && (o.Kept? ==> o.descriptor == d)
            && (o.Resolved? ==>
                  && Announces(o.event.event, o.descriptor, f, env)
                  && o.descriptor.address == d.address.(revision := o.event.event.id)
                  && env.revise(d.address.revision) == Some(o.event.event.id)
                  && o.descriptor.media == d.media && o.descriptor.room == d.room && o.descriptor.fileName == d.fileName
                  && exists r :: r in routed && Extends(o.event, r, env))
  {
    var found := Find(routed, d.address.attachment);
    var o := ResolveOne(routed, d, f, env);
    if o.Resolved? { assert found.value in routed && Extends(o.event, found.value, env); }
  }

  /** The new event is the observed one with its media filled in, one moment later. */
  ghost predicate Extends(after: Routed, before: Routed, env: Environment) {
    && after.route == before.route && after.event.envelope == before.event.envelope
    && env.later(before.event.observedAt) == Some(after.event.observedAt)
    && before.event.payload.Observed? && after.event.payload.Observed?
    && after.event.payload.attachment == before.event.payload.attachment
    && after.event.payload.message == before.event.payload.message
    && after.event.payload.fileName == before.event.payload.fileName
  }

  /** The descriptor was changed, and no event announces the change. */
  ghost predicate Orphans(routed: seq<Routed>, d: Descriptor, f: Fetch, env: Environment) {
    var o := ResolveOne(routed, d, f, env);
    o.Kept? && o.descriptor != d
  }

  /** Exactly when one fetch leaves an orphaned revision: the descriptor admits the bytes and
      the projection does not. */
  lemma OrphansIff(routed: seq<Routed>, d: Descriptor, f: Fetch, env: Environment)
    requires env.revise(d.address.revision) != Some(d.address.revision)
    ensures Orphans(routed, d, f, env) <==>
            && Find(routed, d.address.attachment).Some? && f.Fetched? && Admitted(d, f, env)
            && env.revise(d.address.revision).Some?
            && !PayloadAdmits(Find(routed, d.address.attachment).value.event.payload, f, env)
  {
    var revision := env.revise(d.address.revision);
    if f.Fetched? && revision.Some? {
      assert WithMetadata(d, f, env).(address := d.address.(revision := revision.value)).address.revision !=
        d.address.revision;
    }
  }

  /** What is then recorded: new metadata and a revision that no event announces. */
  lemma DisagreementLeavesOrphan(routed: seq<Routed>, d: Descriptor, f: Fetch, env: Environment, revision: string)
    requires Find(routed, d.address.attachment).Some? && f.Fetched? && Admitted(d, f, env)
    requires env.revise(d.address.revision) == Some(revision)
    requires !PayloadAdmits(Find(routed, d.address.attachment).value.event.payload, f, env)
    ensures ResolveOne(routed, d, f, env) == Kept(WithMetadata(d, f, env).(address := d.address.(revision := revision)))
  {
  }

  /** An input that shows it: the projection states one byte, the descriptor states no size,
      and two bytes are fetched.  The hash is collision-free. */
  lemma UnstatedSizeOrphans()
    ensures var address := Address("t_1", "a_1", "c_1", "i_1", "v_1", "m_1", "x_1", "evt_1", "whatsapp");
            var d := Descriptor(address, "!room", None, None, None, None, "mxc");
            var event := Event("evt_1", "now", Observed("x_1", "m_1", None, None, Some(1), None, None), "");
            var env :=
              Environment(b => DigestWith([0, 0], "hash", b), r => Some("evt_2"), t => Some(t), _ => true, _ => true);
            && Injective(env.digest)
            && ResolveOne([Routed("route", event)], d, Fetched([0, 0], "image/png"), env) ==
               Kept(d.(address := address.(revision := "evt_2"), size := Some(2), mime := Some("image/png"),
                       sha := Some("hash")))
  {
    DigestIsInjective([0, 0], "hash");
  }

  ghost predicate Injective(digest: Bytes -> string) {
    forall a, b :: digest(a) == digest(b) ==> a == b
  }

  /** Under some collision-free hash, some fetch orphans the descriptor's revision. */
  ghost predicate CanOrphan(routed: seq<Routed>, d: Descriptor) {
    exists f: Fetch, env: Environment :: Injective(env.digest) && Orphans(routed, d, f, env)
  }

  /** A descriptor changes only together with its event, whatever is fetched and whatever the
      collision-free hash, exactly when the projection states no more of the media than the
      descriptor does. */
  lemma NeverOrphansIff(routed: seq<Routed>, d: Descriptor)
    ensures CanOrphan(routed, d) <==> !Agree(routed, d)
  {
    if !Agree(routed, d) {
      var f, env := OrphaningFetch(Find(routed, d.address.attachment).value.event.payload, d);
      OrphansIff(routed, d, f, env);
      assert Orphans(routed, d, f, env);
    } else if f: Fetch, env: Environment :| Injective(env.digest) && Orphans(routed, d, f, env) {
      ResolvedOrUntouched(routed, d, f, env);
    }
  }

  /** Bytes that the descriptor admits and the projection does not. */
  lemma OrphaningFetch(p: Payload, d: Descriptor) returns (f: Fetch, env: Environment)
    requires p.Observed? && !StatesNoMore(p, d)
    ensures Injective(env.digest) && f.Fetched? && Admitted(d, f, env) && !PayloadAdmits(p, f, env)
    ensures env.revise(d.address.revision).Some? && env.revise(d.address.revision).value != d.address.revision
  {
    var size := if d.size.Some? then d.size.value else if p.size.Some? then p.size.value + 1 else 0;
    var mime := if d.mime.Some? then d.mime.value else if p.mime.Some? then p.mime.value + "x" else "";
    var sha := if d.sha.Some? then d.sha.value else if p.sha.Some? then p.sha.value + "x" else "";
    var bytes: Bytes := seq(size, _ => 0);
    f := Fetched(bytes, mime);
    DigestIsInjective(bytes, sha);
    env := Environment(b => DigestWith(bytes, sha, b), r => Some(r + "x"), t => Some(t), _ => true, _ => true);
    assert forall t: string :: |t + "x"| == |t| + 1;
    assert p.size.Some? && p.size != d.size ==> p.size.value != |f.bytes|;
    assert p.mime.Some? && p.mime != d.mime ==> p.mime.value != mime;
    assert p.sha.Some? && p.sha != d.sha ==> p.sha.value != env.digest(f.bytes);
  }

  function AsText(b: Bytes): (s: string) {
    seq(|b|, i requires 0 <= i < |b| => b[i] as char)
  }

  lemma AsTextInjective(a: Bytes, b: Bytes)
    requires AsText(a) == AsText(b)
    ensures a == b
  {
    assert |AsText(a)| == |a| && |AsText(b)| == |b|;
    forall i | 0 <= i < |a| ensures a[i] == b[i] { assert AsText(a)[i] == AsText(b)[i]; }
  }

  /** A collision-free function that gives the chosen bytes the chosen digest. */
  function DigestWith(chosen: Bytes, sha: string, b: Bytes): (s: string) {
    if b == chosen then sha else if AsText(b) == sha then AsText(chosen) else AsText(b)
  }

  lemma DigestIsInjective(chosen: Bytes, sha: string)
    ensures Injective((b: Bytes) => DigestWith(chosen, sha, b))
  {
    forall a: Bytes, b: Bytes | DigestWith(chosen, sha, a) == DigestWith(chosen, sha, b) ensures a == b {
      if AsText(a) == AsText(b) { AsTextInjective(a, b); }
      if AsText(a) == AsText(chosen) { AsTextInjective(a, chosen); }
      if AsText(b) == AsText(chosen) { AsTextInjective(b, chosen); }
    }
  }

  function EventOf(o: Outcome): (r: seq<Routed>) {
    if o.Resolved? then [o.event] else []
  }

  /** On success the new events are those of the resolved descriptors, in order. */
  lemma {:induction false} TakenCollects(ds: seq<Descriptor>, os: seq<Outcome>, n: nat)
    requires n <= |ds| == |os| && Taken(ds, os, n).ok
    ensures var r := Taken(ds, os, n);
            && r.events == FlatMap(os[..n], EventOf)
            && (forall i :: 0 <= i < n ==> !os[i].Fatal? && r.descriptors[i] == os[i].descriptor)
  {
    if n > 0 {
      TakenCollects(ds, os, n - 1);
      assert os[..n][..n - 1] == os[..n - 1];
    }
  }

  /** A run fails exactly when some descriptor's outcome is fatal. */
  lemma {:induction false} FailsIffFatal(ds: seq<Descriptor>, os: seq<Outcome>, n: nat)
    requires n <= |ds| == |os|
    ensures Taken(ds, os, n).ok <==> forall i :: 0 <= i < n ==> !os[i].Fatal?
  {
    if n > 0 { FailsIffFatal(ds, os, n - 1); }
  }

  ghost predicate AnnouncedIn(events: seq<Routed>, d: Descriptor, f: Fetch, env: Environment) {
    exists e :: e in events && Announces(e.event, d, f, env)
  }

  /** Ingest with agreeing metadata: every descriptor is untouched, or it is announced by
      one of the new events, and every new event announces a descriptor. */
  lemma IngestAnnounces(routed: seq<Routed>, ds: seq<Descriptor>, fs: seq<Fetch>, env: Environment)
    requires |ds| == |fs| && Ingested(routed, ds, fs, env).ok
    requires forall i :: 0 <= i < |ds| ==> Agree(routed, ds[i])
    ensures var r := Ingested(routed, ds, fs, env);
            && (forall i :: 0 <= i < |ds| ==>
                  r.descriptors[i] == ds[i] || AnnouncedIn(r.events, r.descriptors[i], fs[i], env))
            && (forall e :: e in r.events ==>
                  exists i :: 0 <= i < |ds| && Announces(e.event, r.descriptors[i], fs[i], env))
  {
    var n, os := |ds|, Outcomes(routed, ds, fs, env);
    var r := Taken(ds, os, n);
    TakenCollects(ds, os, n);
    assert os[..n] == os;
    forall i | 0 <= i < n
      ensures os[i].Kept? ==> r.descriptors[i] == ds[i]
      ensures os[i].Resolved? ==> Announces(os[i].event.event, r.descriptors[i], fs[i], env)
    {
      ResolvedOrUntouched(routed, ds[i], fs[i], env);
    }
    EventsAreOutcomes(os, r.events);
    forall i | 0 <= i < n ensures r.descriptors[i] == ds[i] || AnnouncedIn(r.events, r.descriptors[i], fs[i], env) {
      if os[i].Resolved? { assert os[i].event in r.events; }
    }
  }

  lemma EventsAreOutcomes(os: seq<Outcome>, events: seq<Routed>)
    requires events == FlatMap(os, EventOf)
    ensures forall e :: e in events <==> exists i :: 0 <= i < |os| && os[i].Resolved? && os[i].event == e
  {
    FlatMapMembers(os, EventOf);
    forall e ensures e in events <==> exists i :: 0 <= i < |os| && os[i].Resolved? && os[i].event == e {
      if i :| 0 <= i < |os| && os[i].Resolved? && os[i].event == e { assert e in EventOf(os[i]); }
      if i :| 0 <= i < |os| && e in EventOf(os[i]) { assert os[i].Resolved?; }
    }
  }

  // ---- Reading

  datatype Binding = Binding(conversation: string, room: string)

  datatype Load<+T> = LoadFailed | Missing | Loaded(value: T)

  /** What one moment's store answers. */
  datatype Store = Store(bindings: Address -> Load<Binding>, descriptors: Address -> Load<Descriptor>)

  datatype Request = Request(
    address: Address, key: string,
    expectedSize: Option<nat>, expectedSha: Option<string>, expectedMime: Option<string>)

  datatype Response =
    | Malformed
    | Forbidden
    | StoreError
    | Unavailable(reason: string)
    | Available(bytes: Bytes, mime: string, sha: string, size: nat)

  /** The store at the four moments when a read looks at it. */
  datatype Moments = Moments(first: Store, second: Store, third: Store, fourth: Store)

  predicate ValidAddress(a: Address, isProvider: string -> bool) {
    && ValidResourceId(a.tenant) && ValidResourceId(a.account) && ValidResourceId(a.connection)
    && ValidResourceId(a.identity) && ValidResourceId(a.conversation) && ValidResourceId(a.message)
    && ValidResourceId(a.attachment) && ValidResourceId(a.revision) && isProvider(a.provider)
  }

  predicate ValidRequest(r: Request, isProvider: string -> bool, env: Environment) {
    && ValidAddress(r.address, isProvider)
    && (r.expectedSize.Some? ==> r.expectedSize.value <= MAX_MEDIA_BYTES)
    && (r.expectedSha.Some? ==> ValidHexHash(r.expectedSha.value))
    && (r.expectedMime.Some? ==> env.validMime(r.expectedMime.value))
    && var key := ParseMediaKey(r.key);
       key.Some? && key.value.0 == r.address.tenant && Admits(r.expectedSha, key.value.1)
  }

  /** A request is well formed exactly when its eight ids are resource ids, its provider is known, its
      key is the one built from its tenant and a hash, and what it expects can be met: a size within
      the limit, that hash, a valid media type. */
  lemma ValidRequestIff(r: Request, isProvider: string -> bool, env: Environment)
    ensures ValidRequest(r, isProvider, env) <==>
            && ValidResourceId(r.address.tenant) && ValidResourceId(r.address.account)
            && ValidResourceId(r.address.connection) && ValidResourceId(r.address.identity)
            && ValidResourceId(r.address.conversation) && ValidResourceId(r.address.message)
            && ValidResourceId(r.address.attachment) && ValidResourceId(r.address.revision)
            && isProvider(r.address.provider)
            && (exists hash :: r.key == MediaKey(r.address.tenant, hash) && ValidHexHash(hash) &&
                               (r.expectedSha == None || r.expectedSha == Some(hash)))
            && (r.expectedSize == None || r.expectedSize.value <= 8 * 1024 * 1024)
            && (r.expectedMime == None || env.validMime(r.expectedMime.value))
  {
    var key := ParseMediaKey(r.key);
    if key.Some? { MediaKeyRoundTrip(r.key, key.value.0, key.value.1); }
    if hash :| r.key == MediaKey(r.address.tenant, hash) && ValidHexHash(hash) && ValidResourceId(r.address.tenant) &&
               (r.expectedSha == None || r.expectedSha == Some(hash)) {
      MediaKeyRoundTrip(r.key, r.address.tenant, hash);
    }
  }

  function KeyHash(r: Request): (hash: string) {
    var key := ParseMediaKey(r.key);
    if key.Some? then key.value.1 else ""
  }

  function ActiveBinding(s: Store, r: Request): (b: Load<Binding>) {
    var b := s.bindings(r.address);
    if b.Loaded? && b.value.conversation != r.address.conversation then Missing else b
  }

  predicate MatchesRequest(d: Descriptor, r: Request) {
    d.address == r.address && Admits(d.sha, KeyHash(r))
  }

  function ReleaseChecked(f: Fetch, r: Request, d: Descriptor, env: Environment): (response: Response)
    requires f.Fetched?
  {
    if |f.bytes| > MAX_MEDIA_BYTES || !Admits(r.expectedSize, |f.bytes|)
       || !Admits(d.mime, f.mime) || !Admits(r.expectedMime, f.mime) then Unavailable("malformed")
    else
      var hash := env.digest(f.bytes);
      if hash != KeyHash(r) || !Admits(r.expectedSha, hash) then Unavailable("malformed")
      else Available(f.bytes, f.mime, hash, |f.bytes|)
  }

  /** The binding and the descriptor are there and belong to the request. */
  predicate Authorised(r: Request, bindings: Store, descriptors: Store) {
    var b, d := ActiveBinding(bindings, r), descriptors.descriptors(r.address);
    b.Loaded? && d.Loaded? && d.value.room == b.value.room && MatchesRequest(d.value, r)
  }

  /** The descriptor knows what the request expects of the plaintext. */
  predicate MetadataKnown(d: Descriptor, r: Request) {
    (r.expectedMime.Some? ==> d.mime == r.expectedMime) && (r.expectedSize.Some? ==> d.size == r.expectedSize)
  }

  /** Both checks hold, around a fetch of the same medium, and the bytes are the named ones. */
  predicate Releases(r: Request, m: Moments, fetch: string -> Fetch, isProvider: string -> bool, env: Environment) {
    && ValidRequest(r, isProvider, env)
    && Authorised(r, m.first, m.second) && MetadataKnown(m.second.descriptors(r.address).value, r)
    && Authorised(r, m.third, m.fourth)
    && var before, after := m.second.descriptors(r.address).value, m.fourth.descriptors(r.address).value;
       var f := fetch(before.media);
       after.media == before.media && f.Fetched? && ReleaseChecked(f, r, after, env).Available?
  }

  /** The read protocol.  Bytes leave only when both checks hold, and then they are the
      fetched ones. */
  method HandleRequest(r: Request, m: Moments, fetch: string -> Fetch, isProvider: string -> bool, env: Environment)
    returns (response: Response)
    ensures response.Available? <==> Releases(r, m, fetch, isProvider, env)
    ensures response.Available? ==>
              var f := fetch(m.second.descriptors(r.address).value.media);
              response == Available(f.bytes, f.mime, KeyHash(r), |f.bytes|)
    ensures response.Malformed? <==> !ValidRequest(r, isProvider, env)
    ensures ActiveBinding(m.first, r).Missing? && ValidRequest(r, isProvider, env) ==> response == Forbidden
    ensures ValidRequest(r, isProvider, env) && ActiveBinding(m.first, r).LoadFailed? ==> response == StoreError
    ensures ValidRequest(r, isProvider, env) && ActiveBinding(m.first, r).Loaded? &&
            m.second.descriptors(r.address).Missing? ==>
              response == Unavailable("missing")
    ensures ValidRequest(r, isProvider, env) && ActiveBinding(m.first, r).Loaded? &&
            m.second.descriptors(r.address).LoadFailed? ==>
              response == Unavailable("malformed")
    ensures ValidRequest(r, isProvider, env) && Authorised(r, m.first, m.second) &&
            MetadataKnown(m.second.descriptors(r.address).value, r) ==>
              var f := fetch(m.second.descriptors(r.address).value.media);
              && (f.FetchFailed? ==> response == Unavailable(f.reason))
              && (f.Fetched? && ActiveBinding(m.third, r).Missing? ==> response == Forbidden)
              && (f.Fetched? && ActiveBinding(m.third, r).LoadFailed? ==> response == StoreError)
              && (f.Fetched? && Authorised(r, m.third, m.fourth) && !response.Available? ==>
                    response == if m.fourth.descriptors(r.address).value.media ==
                                   m.second.descriptors(r.address).value.media
                                then Unavailable("malformed") else Unavailable("missing"))
    ensures response.Forbidden? ==> ActiveBinding(m.first, r).Missing? || ActiveBinding(m.third, r).Missing?
    ensures response.StoreError? ==> ActiveBinding(m.first, r).LoadFailed? || ActiveBinding(m.third, r).LoadFailed?
  {
    if !ValidRequest(r, isProvider, env) { return Malformed; }
    var authority := ActiveBinding(m.first, r);
    if authority.Missing? { return Forbidden; }
    if authority.LoadFailed? { return StoreError; }
    var descriptor := m.second.descriptors(r.address);
    if descriptor.Missing? { return Unavailable("missing"); }
    if descriptor.LoadFailed? { return Unavailable("malformed"); }
    if descriptor.value.room != authority.value.room || !MatchesRequest(descriptor.value, r)
       || !MetadataKnown(descriptor.value, r) {
      return Unavailable("missing");
    }
    var fetched := fetch(descriptor.value.media);
    if fetched.FetchFailed? { return Unavailable(fetched.reason); }
    var authorityAfter := ActiveBinding(m.third, r);
    if authorityAfter.Missing? { return Forbidden; }
    if authorityAfter.LoadFailed? { return StoreError; }
    var descriptorAfter := m.fourth.descriptors(r.address);
    if descriptorAfter.Missing? { return Unavailable("missing"); }
    if descriptorAfter.LoadFailed? { return Unavailable("malformed"); }
    if descriptorAfter.value.room != authorityAfter.value.room || descriptorAfter.value.media != descriptor.value.media
       || !MatchesRequest(descriptorAfter.value, r) {
      return Unavailable("missing");
    }
    return ReleaseChecked(fetched, r, descriptorAfter.value, env);
  }

  // ---- Ingest and read fit together

  /** The read that an announcing event grants. */
  function RequestFor(event: Event, d: Descriptor): (r: Request)
    requires event.payload.Observed? && event.payload.key.Some?
  {
    Request(d.address.(revision := event.id), event.payload.key.value, event.payload.size, event.payload.sha,
            event.payload.mime)
  }

  ghost predicate Holds(s: Store, d: Descriptor) {
    && s.descriptors(d.address) == Loaded(d)
    && s.bindings(d.address) == Loaded(Binding(d.address.conversation, d.room))
  }

  /** A read built from an announcing event, over a store that keeps the descriptor and its
      binding, of the same bytes, is released if and only if they fit the size limit. */
  lemma AnnouncedIsReadable(event: Event, d: Descriptor, f: Fetch, s: Store, fetch: string -> Fetch,
                            isProvider: string -> bool, env: Environment)
    requires Announces(event, d, f, env) && Holds(s, d) && fetch(d.media) == f
    requires ValidAddress(d.address, isProvider) && forall b :: ValidHexHash(env.digest(b))
    ensures Releases(RequestFor(event, d), Moments(s, s, s, s), fetch, isProvider, env) <==>
              |f.bytes| <= MAX_MEDIA_BYTES
  {
    var hash := env.digest(f.bytes);
    assert ValidHexHash(hash);
    MediaKeyRoundTrip(MediaKey(d.address.tenant, hash), d.address.tenant, hash);
    var r := RequestFor(event, d);
    assert r.address == d.address;
    assert KeyHash(r) == hash;
    assert Authorised(r, s, s) && MetadataKnown(d, r);
  }

  /** Whatever the store does in between, one media key never releases two different contents. */
  lemma OneKeyOneContent(r: Request, q: Request, m: Moments, k: Moments, fetch: string -> Fetch,
                         refetch: string -> Fetch, isProvider: string -> bool, env: Environment)
    requires Injective(env.digest) && r.key == q.key
    requires Releases(r, m, fetch, isProvider, env) && Releases(q, k, refetch, isProvider, env)
    ensures fetch(m.second.descriptors(r.address).value.media).bytes ==
            refetch(k.second.descriptors(q.address).value.media).bytes
    ensures r.address.tenant == q.address.tenant
  {
    var a := fetch(m.second.descriptors(r.address).value.media).bytes;
    var b := refetch(k.second.descriptors(q.address).value.media).bytes;
    assert env.digest(a) == KeyHash(r) == KeyHash(q) == env.digest(b);
  }
}
