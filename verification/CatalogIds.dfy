/** Identifiers of catalog entities, the keys that deduplicate refresh and collection jobs, and the
    failure codes carried in job messages. */
module CatalogIds {
  import opened Text

  const I64_MAX := 0x7FFF_FFFF_FFFF_FFFF

  // ---------- canonical identifiers ----------

  /** `parse::<i64>` on a non-empty string of digits. */
  function ParseI64(s: string): Option<nat>
    requires AllDigits(s)
  {
    if Value(s) <= I64_MAX then Some(Value(s)) else None
  }

  /** `valid_id`. */
  predicate IsValidId(id: string) {
    id != "" && AllDigits(id) &&
    match ParseI64(id)
    case None => false
    case Some(v) => v > 0 && Decimal(v) == id
  }

  ghost predicate IsCanonical(id: string) {
    exists v: nat :: 0 < v <= 9_223_372_036_854_775_807 && Decimal(v) == id
  }

  /** The accepted identifiers are the canonical decimals of the positive 64-bit integers. */
  lemma ValidIdsAreCanonical(id: string)
    ensures IsValidId(id) <==> IsCanonical(id)
  {
    if v: nat :| 0 < v <= 9_223_372_036_854_775_807 && Decimal(v) == id {
      ValueOfDecimal(v);
    }
  }

  /** `SC_TRACK_ID_PATTERN`: `^[1-9][0-9]{0,18}$`. */
  predicate MatchesTrackId(id: string) {
    1 <= |id| <= 19 && AllDigits(id) && id[0] != '0'
  }

  function Pow10(n: nat): (r: nat)
    ensures r >= 1
  {
    if n == 0 then 1 else 10 * Pow10(n - 1)
  }

  lemma {:induction false} ValueBounds(s: string)
    requires AllDigits(s) && s != "" && s[0] != '0'
    ensures Pow10(|s| - 1) <= Value(s) < Pow10(|s|)
  {
    var init := s[..|s| - 1];
    if |s| == 1 {
      assert Value(init) == 0;
      assert DigitChar(0) == '0';
    } else {
      ValueBounds(init);
    }
  }

  /** Digits without a leading zero are the decimal of their value. */
  lemma {:induction false} DecimalOfValue(s: string)
    requires AllDigits(s) && s != "" && s[0] != '0'
    ensures Decimal(Value(s)) == s
  {
    var init := s[..|s| - 1];
    if |s| == 1 {
      assert Value(init) == 0;
      assert s == [s[0]];
    } else {
      DecimalOfValue(init);
      ValueBounds(init);
      assert Value(s) >= 10;
      assert Value(s) / 10 == Value(init) && Value(s) % 10 == DigitValue(s[|s| - 1]);
      assert s == init + [s[|s| - 1]];
    }
  }

  lemma {:induction false} DecimalHead(n: nat)
    requires n > 0
    ensures Decimal(n)[0] != '0'
  {
    if n >= 10 { DecimalHead(n / 10); }
  }

  lemma Pow10At19()
    ensures Pow10(19) == 10_000_000_000_000_000_000
  {
    assert Pow10(4) == 10_000;
    assert Pow10(8) == 100_000_000;
    assert Pow10(12) == 1_000_000_000_000;
    assert Pow10(16) == 10_000_000_000_000_000;
  }

  lemma {:induction false} Pow10Grows(m: nat, n: nat)
    requires m <= n
    ensures Pow10(m) <= Pow10(n)
    decreases n
  {
    if m < n { Pow10Grows(m, n - 1); }
  }

  /** The track-id pattern matches exactly the canonical decimals of 1 to 10^19 - 1. */
  lemma TrackIdsAreDecimals(id: string)
    ensures MatchesTrackId(id) <==> exists v: nat :: 0 < v < 10_000_000_000_000_000_000 && Decimal(v) == id
  {
    Pow10At19();
    if MatchesTrackId(id) {
      DecimalOfValue(id);
      ValueBounds(id);
      Pow10Grows(|id|, 19);
    }
    if v: nat :| 0 < v < 10_000_000_000_000_000_000 && Decimal(v) == id {
      DecimalHead(v);
      ValueOfDecimal(v);
      ValueBounds(id);
      if |id| > 19 { Pow10Grows(19, |id| - 1); }
    }
  }

  /** Every accepted identifier is a track id, and every track id fits an unsigned 64-bit integer. */
  lemma ValidIdsAreTrackIds(id: string)
    ensures IsValidId(id) ==> MatchesTrackId(id)
    ensures MatchesTrackId(id) ==> Value(id) <= 0xFFFF_FFFF_FFFF_FFFF
  {
    Pow10At19();
    ValidIdsAreCanonical(id);
    TrackIdsAreDecimals(id);
    if v: nat :| 0 < v < 10_000_000_000_000_000_000 && Decimal(v) == id {
      ValueOfDecimal(v);
    }
  }

  // ---------- deduplication keys ----------

  datatype Entity = Track | Playlist | User | Profile | WebProfiles

  function EntityName(e: Entity): string {
    match e
    case Track => "track"
    case Playlist => "playlist"
    case User => "user"
    case Profile => "profile"
    case WebProfiles => "web_profiles"
  }

  datatype Refresh = Refresh(entity: Entity, scId: string, ownerId: Option<string>)

  predicate IsValid(p: Refresh) {
    && IsValidId(p.scId)
    && (p.ownerId.Some? ==> IsValidId(p.ownerId.value))
    && (p.entity == WebProfiles ==> p.ownerId.None?)
    && (p.entity == Profile ==> p.ownerId == Some(p.scId))
  }

  /** The valid refreshes are those of positive 64-bit numbers: a profile on behalf of itself, web
      profiles on behalf of nobody, anything else on behalf of anyone or nobody. */
  lemma ValidRefreshesAre(p: Refresh)
    ensures IsValid(p) <==>
              && IsCanonical(p.scId)
              && match p.entity
                 case Profile => p.ownerId.Some? && p.ownerId.value == p.scId
                 case WebProfiles => p.ownerId.None?
                 case Track => p.ownerId.None? || IsCanonical(p.ownerId.value)
                 case Playlist => p.ownerId.None? || IsCanonical(p.ownerId.value)
                 case User => p.ownerId.None? || IsCanonical(p.ownerId.value)
  {
    ValidIdsAreCanonical(p.scId);
    if p.ownerId.Some? { ValidIdsAreCanonical(p.ownerId.value); }
  }

  function Key(a: string, b: string, c: string): string {
    a + [':'] + (b + [':'] + c)
  }

  function DedupKey(p: Refresh): string {
    Key(EntityName(p.entity), p.scId, if p.ownerId.Some? then p.ownerId.value else "public")
  }

  /** The key of a refresh, written out. */
  lemma RefreshKeyIs(p: Refresh)
    ensures DedupKey(p) == (match p.entity
                            case Track => "track"
                            case Playlist => "playlist"
                            case User => "user"
                            case Profile => "profile"
                            case WebProfiles => "web_profiles")
                           + [':'] + (p.scId + [':'] + (match p.ownerId case None => "public" case Some(owner) => owner))
  {
  }

  lemma KeyInjective(a: string, b: string, c: string, a': string, b': string, c': string)
    requires Key(a, b, c) == Key(a', b', c')
    requires ':' !in a && ':' !in a' && ':' !in b && ':' !in b'
    ensures a == a' && b == b' && c == c'
  {
    SplitFirst(a, ':', b + [':'] + c, a', b' + [':'] + c');
    SplitFirst(b, ':', c, b', c');
  }

  lemma EntityNameInjective(e: Entity, e': Entity)
    requires EntityName(e) == EntityName(e')
    ensures e == e'
  {
  }

  /** Valid refreshes with the same key are the same refresh. */
  lemma RefreshKeysAreInjective(p: Refresh, q: Refresh)
    requires IsValid(p) && IsValid(q) && DedupKey(p) == DedupKey(q)
    ensures p == q
  {
    assert ':' !in EntityName(p.entity) && ':' !in EntityName(q.entity);
    KeyInjective(EntityName(p.entity), p.scId, if p.ownerId.Some? then p.ownerId.value else "public",
                 EntityName(q.entity), q.scId, if q.ownerId.Some? then q.ownerId.value else "public");
    EntityNameInjective(p.entity, q.entity);
    assert !IsDigit("public"[0]);
  }

  datatype Collection =
    | LikedTracks | LikedPlaylists | Followings | Followers | OwnedTracks | OwnedPlaylists
    | TrackFavoriters | TrackReposters | PlaylistReposters | TrackComments

  function CollectionName(c: Collection): string {
    match c
    case LikedTracks => "liked-tracks"
    case LikedPlaylists => "liked-playlists"
    case Followings => "followings"
    case Followers => "followers"
    case OwnedTracks => "owned-tracks"
    case OwnedPlaylists => "owned-playlists"
    case TrackFavoriters => "track-favoriters"
    case TrackReposters => "track-reposters"
    case PlaylistReposters => "playlist-reposters"
    case TrackComments => "track-comments"
  }

  predicate PublicOnly(c: Collection) {
    c.Followers? || c.TrackFavoriters? || c.TrackReposters? || c.PlaylistReposters? || c.TrackComments?
  }

  datatype CollectionJob = CollectionJob(collection: Collection, subjectId: string, owner: bool)

  predicate IsValidJob(p: CollectionJob) {
    !(p.owner && PublicOnly(p.collection)) && IsValidId(p.subjectId)
  }

  /** A job on behalf of an owner is valid exactly for what the owner's account lists. */
  lemma ValidJobsAre(p: CollectionJob)
    ensures IsValidJob(p) <==>
              && IsCanonical(p.subjectId)
              && (p.owner ==> p.collection in {LikedTracks, LikedPlaylists, Followings, OwnedTracks, OwnedPlaylists})
  {
    ValidIdsAreCanonical(p.subjectId);
  }

  function Scope(owner: bool): string {
    if owner then "owner" else "public"
  }

  function JobKey(p: CollectionJob): string {
    Key(CollectionName(p.collection), p.subjectId, Scope(p.owner))
  }

  /** The key of a collection job, written out. */
  lemma JobKeyIs(p: CollectionJob)
    ensures JobKey(p) == (match p.collection
                          case LikedTracks => "liked-tracks"
                          case LikedPlaylists => "liked-playlists"
                          case Followings => "followings"
                          case Followers => "followers"
                          case OwnedTracks => "owned-tracks"
                          case OwnedPlaylists => "owned-playlists"
                          case TrackFavoriters => "track-favoriters"
                          case TrackReposters => "track-reposters"
                          case PlaylistReposters => "playlist-reposters"
                          case TrackComments => "track-comments")
                         + [':'] + (p.subjectId + [':'] + if p.owner then "owner" else "public")
  {
  }

  /** The length of a name and its seventh character tell the collections apart. */
  lemma CollectionNameInjective(c: Collection, d: Collection)
    requires CollectionName(c) == CollectionName(d)
    ensures c == d
  {
    var s, t := CollectionName(c), CollectionName(d);
    assert |s| == |t| && s[0] == t[0] && s[6] == t[6];
  }

  /** Valid collection jobs with the same key are the same job. */
  lemma JobKeysAreInjective(p: CollectionJob, q: CollectionJob)
    requires IsValidJob(p) && IsValidJob(q) && JobKey(p) == JobKey(q)
    ensures p == q
  {
    CollectionNamePlain(p.collection);
    CollectionNamePlain(q.collection);
    KeyInjective(CollectionName(p.collection), p.subjectId, Scope(p.owner),
                 CollectionName(q.collection), q.subjectId, Scope(q.owner));
    CollectionNameInjective(p.collection, q.collection);
    ScopeInjective(p.owner, q.owner);
  }

  lemma CollectionNamePlain(c: Collection)
    ensures ':' !in CollectionName(c)
  {
  }

  lemma ScopeInjective(o: bool, o': bool)
    requires Scope(o) == Scope(o')
    ensures o == o'
  {
    assert Scope(true)[0] == 'o' && Scope(false)[0] == 'p';
  }

  // ---------- failure codes ----------

  datatype Failure = AuthRequired | NotFound | Forbidden

  function Code(f: Failure): string {
    match f
    case AuthRequired => "auth_required"
    case NotFound => "not_found"
    case Forbidden => "forbidden"
  }

  function Message(f: Failure, detail: string): string {
    Code(f) + (": " + detail)
  }

  /** `from_last_error`. */
  function FromLastError(lastError: string): Option<Failure> {
    var code := Before(lastError, ':');
    if code == Code(AuthRequired) then Some(AuthRequired)
    else if code == Code(NotFound) then Some(NotFound)
    else if code == Code(Forbidden) then Some(Forbidden)
    else None
  }

  lemma CodesDiffer()
    ensures Code(AuthRequired) != Code(NotFound) && Code(AuthRequired) != Code(Forbidden) && Code(NotFound) != Code(Forbidden)
  {
    assert Code(AuthRequired)[0] != Code(NotFound)[0];
    assert Code(AuthRequired)[0] != Code(Forbidden)[0];
    assert Code(NotFound)[0] != Code(Forbidden)[0];
  }

  /** Only the bare code and texts that go on with a colon after it are read as the failure. */
  lemma FailuresRead(lastError: string, f: Failure)
    ensures FromLastError(lastError) == Some(f) <==> lastError == Code(f) || Code(f) + [':'] <= lastError
  {
    CodesDiffer();
    CodePlain(f);
    BeforeIff(Code(f), ':', lastError);
  }

  lemma CodePlain(f: Failure)
    ensures ':' !in Code(f)
  {
  }

  lemma MessageStarts(code: string, detail: string)
    ensures code + [':'] <= code + (": " + detail)
  {
  }

  /** The failure is read back from its message, whatever the detail, and from its bare code. */
  lemma FailureReadsBack(f: Failure, detail: string)
    ensures FromLastError(Message(f, detail)) == Some(f)
    ensures FromLastError(Code(f)) == Some(f)
    ensures Message(f, detail) == match f
                                  case AuthRequired => "auth_required" + (": " + detail)
                                  case NotFound => "not_found" + (": " + detail)
                                  case Forbidden => "forbidden" + (": " + detail)
  {
    FailuresRead(Message(f, detail), f);
    FailuresRead(Code(f), f);
    MessageStarts(Code(f), detail);
  }
}
