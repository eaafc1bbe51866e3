/** What the image cache knows of an image, and when an image may be thrown out. */
module ImageModel {
  import opened Wrappers
  import opened MapSums

  const BUDGET_BYTES: int := 256 * 1024 * 1024

  datatype Size = Size(width: int, height: int)

  /** A still picture has a texture; a moving one has frames, some perhaps without a texture. */
  datatype Picture = Picture(frames: seq<Option<Size>>, texture: Option<Size>)

  const NO_PICTURE: Picture := Picture([], None)

  function BytesOf(size: Option<Size>): nat {
    if size.Some? && size.value.width > 0 && size.value.height > 0
    then size.value.width * size.value.height * 4
    else 0
  }

  function FrameBytes(frames: seq<Option<Size>>): nat {
    if frames == [] then 0 else FrameBytes(frames[..|frames| - 1]) + BytesOf(frames[|frames| - 1])
  }

  /** The memory a decoded picture takes: that of all its frames, else that of its texture. */
  function DecodedBytes(p: Picture): nat {
    if p.frames != [] then FrameBytes(p.frames) else BytesOf(p.texture)
  }

  datatype Rec = Rec(
    loaded: bool, failed: bool, purged: bool, bytes: nat, gen: nat,
    attempts: nat, status: int, failedAt: int, picture: Picture)

  const NEW_REC: Rec := Rec(false, false, false, 0, 0, 0, 0, 0, NO_PICTURE)

  function Bytes(r: Rec): nat { r.bytes }

  /** Nothing is known of the picture yet: somebody must be fetching or decoding it. */
  predicate Unknown(r: Rec) { !r.loaded && !r.failed && !r.purged }

  // ---- Retrying ----

  const SECOND: int := 1000000

  predicate Transient(status: int) {
    status == 408 || status == 425 || status == 429 || status == 500 || status == 502 ||
    status == 503 || status == 504
  }

  /** The wait before the next attempt. */
  function RetryWait(attempts: nat, status: int): int {
    if status == 429 then if attempts <= 1 then 15 * SECOND else 45 * SECOND
    else if attempts <= 1 then 2 * SECOND else 10 * SECOND
  }

  predicate ShouldRetry(r: Rec, now: int) {
    r.failed && r.attempts < 3 && (r.status <= 0 || Transient(r.status)) &&
    (r.failedAt == 0 || now - r.failedAt >= RetryWait(r.attempts, r.status))
  }

  // ---- Asking ----

  /** A request starts for an image thrown out, or one that failed and may be tried again. */
  predicate Starts(r: Rec, now: int) { r.purged || ShouldRetry(r, now) }

  /** The record of a cached image that has been asked for. */
  function Got(r: Rec, now: int, enabled: bool, gen: nat): Rec {
    if !enabled then r.(gen := gen)
    else if r.purged then r.(gen := gen, purged := false, attempts := r.attempts + 1)
    else if ShouldRetry(r, now) then
      r.(gen := gen, failed := false, status := 0, failedAt := 0, attempts := r.attempts + 1)
    else r.(gen := gen)
  }

  /** The record of an address asked for the first time. */
  function FirstGot(enabled: bool): Rec {
    if enabled then NEW_REC.(attempts := 1) else NEW_REC.(failed := true)
  }

  /** The record of a picture that came from elsewhere. */
  function Inserted(texture: Size, gen: nat): Rec {
    Accounted(NEW_REC.(loaded := true, picture := Picture([], Some(texture))), gen)
  }

  // ---- Answers ----

  datatype Content = Undecodable | Decoded(picture: Picture)

  /** What comes back from the network: nothing, an error or an empty body, a body that is decoded
      elsewhere, or a body decoded at once. */
  datatype Response = NoResponse | Refused(status: int) | Later(status: int) | Body(status: int, content: Content)

  /** The record once its picture is accounted. */
  function Accounted(r: Rec, gen: nat): Rec {
    if !r.loaded || r.bytes != 0 then r else r.(bytes := DecodedBytes(r.picture), gen := gen)
  }

  function Applied(r: Rec, content: Content, now: int): Rec {
    match content
    case Decoded(p) => r.(picture := p, loaded := true)
    case Undecodable => r.(failed := true, failedAt := now)
  }

  function Fetched(r: Rec, resp: Response, now: int, gen: nat): Rec {
    match resp
    case NoResponse => r.(failed := true, failedAt := now)
    case Refused(st) => r.(status := st, failed := true, failedAt := now)
    case Later(st) => r.(status := st)
    case Body(st, content) => Accounted(Applied(r.(status := st), content, now), gen)
  }

  // ---- Throwing out ----

  /** An accounted image of another generation than the current one that nobody waits for. */
  predicate Evictable(r: Rec, gen: nat, waited: bool) {
    r.loaded && r.bytes != 0 && r.gen != gen && !waited
  }

  function PurgedRec(r: Rec): Rec {
    r.(bytes := 0, loaded := false, purged := true, picture := NO_PICTURE)
  }

  /** Throwing out the images of some addresses, in order. */
  function PurgedAll(recs: map<string, Rec>, victims: seq<string>): (r: map<string, Rec>)
    requires forall v <- victims :: v in recs
    ensures r.Keys == recs.Keys
  {
    if victims == [] then recs
    else
      var u := victims[|victims| - 1];
      PurgedAll(recs, victims[..|victims| - 1])[u := PurgedRec(recs[u])]
  }

  function Freed(recs: map<string, Rec>, victims: seq<string>): nat
    requires forall v <- victims :: v in recs
  {
    if victims == [] then 0 else Freed(recs, victims[..|victims| - 1]) + recs[victims[|victims| - 1]].bytes
  }

  ghost predicate Oldest(recs: map<string, Rec>, gen: nat, waited: set<string>, u: string) {
    u in recs && Evictable(recs[u], gen, u in waited) &&
    forall v <- recs :: Evictable(recs[v], gen, v in waited) ==> recs[u].gen <= recs[v].gen
  }

  /** A choice of victims, one after the other: each may be thrown out and is of the oldest generation
      among those that may be, and memory is still over budget when it is chosen. */
  ghost predicate Chosen(recs: map<string, Rec>, total: int, gen: nat, waited: set<string>, victims: seq<string>) {
    (forall v <- victims :: v in recs) &&
    (victims == [] ||
     (var before := victims[..|victims| - 1];
      Chosen(recs, total, gen, waited, before) &&
      Oldest(PurgedAll(recs, before), gen, waited, victims[|victims| - 1]) &&
      total - Freed(recs, before) > BUDGET_BYTES))
  }

  lemma {:induction false} PurgedAt(recs: map<string, Rec>, victims: seq<string>, u: string)
    requires (forall v <- victims :: v in recs) && u in recs
    ensures PurgedAll(recs, victims)[u] == if u in victims then PurgedRec(recs[u]) else recs[u]
  {
    if victims != [] {
      PurgedAt(recs, victims[..|victims| - 1], u);
      assert u in victims <==> u in victims[..|victims| - 1] || u == victims[|victims| - 1];
    }
  }

  /** What a choice of victims amounts to: each could be thrown out at the start, none is chosen twice,
      and none of the images that could be thrown out and were not chosen before it is older; so they
      go oldest generation first. */
  lemma {:induction false} ChosenMeans(recs: map<string, Rec>, total: int, gen: nat, waited: set<string>,
                                       victims: seq<string>, i: nat)
    requires Chosen(recs, total, gen, waited, victims) && i < |victims|
    ensures Evictable(recs[victims[i]], gen, victims[i] in waited) && victims[i] !in victims[..i]
    ensures forall w <- recs :: (w !in victims[..i] && Evictable(recs[w], gen, w in waited)
                                 ==> recs[victims[i]].gen <= recs[w].gen)
  {
    var before := victims[..|victims| - 1];
    assert victims[..i] == before[..i];
    if i < |before| {
      ChosenMeans(recs, total, gen, waited, before, i);
    } else {
      PurgedAt(recs, before, victims[i]);
      forall w <- recs | w !in before && Evictable(recs[w], gen, w in waited)
        ensures recs[victims[i]].gen <= recs[w].gen
      {
        PurgedAt(recs, before, w);
      }
    }
  }

  /** Whatever is still wanted stays: an image asked for in this generation, one that is waited for, and
      one that is not accounted; and when nothing more may go, every other one is gone. */
  lemma ChosenSpares(recs: map<string, Rec>, total: int, gen: nat, waited: set<string>, victims: seq<string>, u: string)
    requires Chosen(recs, total, gen, waited, victims) && u in recs
    ensures recs[u].gen == gen || u in waited || recs[u].bytes == 0 || !recs[u].loaded ==>
      u !in victims && PurgedAll(recs, victims)[u] == recs[u]
    ensures recs[u].gen != gen && u !in waited && recs[u].bytes > 0 && recs[u].loaded &&
            !Evictable(PurgedAll(recs, victims)[u], gen, u in waited) ==>
      u in victims && PurgedAll(recs, victims)[u].picture == NO_PICTURE && PurgedAll(recs, victims)[u].bytes == 0
  {
    PurgedAt(recs, victims, u);
    if u in victims {
      var i :| 0 <= i < |victims| && victims[i] == u;
      ChosenMeans(recs, total, gen, waited, victims, i);
    }
  }

  // ---- What holds of the cache ----

  /** A loaded or purged image has nobody waiting, only a loaded one is accounted, and an image nothing
      is known of is being requested. */
  predicate RecOk(r: Rec, gen: nat, waited: bool, requested: bool) {
    && (r.bytes > 0 ==> r.loaded)
    && (r.loaded ==> !r.purged && !r.failed)
    && (r.purged ==> !r.failed)
    && (r.loaded || r.purged ==> !waited)
    && (Unknown(r) <==> requested)
    && (requested ==> waited)
    && r.gen <= gen
  }

  /** The total is the sum over the cached images, and every image is in order. */
  ghost predicate Sound(recs: map<string, Rec>, gen: nat, total: int, waited: set<string>, requested: set<string>) {
    && total == Sum(recs, Bytes)
    && forall u {:trigger SoundAt(recs, gen, waited, requested, u)} ::
         u in recs ==> SoundAt(recs, gen, waited, requested, u)
  }

  ghost predicate SoundAt(recs: map<string, Rec>, gen: nat, waited: set<string>, requested: set<string>, u: string)
    requires u in recs
  {
    RecOk(recs[u], gen, u in waited, u in requested)
  }

  /** Changing one image keeps that, if its own part is kept. */
  lemma SoundUpdate(recs: map<string, Rec>, gen: nat, total: int, waited: set<string>, requested: set<string>,
                    u: string, r: Rec, total': int, waited': set<string>, requested': set<string>)
    requires Sound(recs, gen, total, waited, requested)
    requires total' == total + r.bytes - (if u in recs then recs[u].bytes else 0)
    requires waited' - {u} == waited - {u} && requested' - {u} == requested - {u}
    requires RecOk(r, gen, u in waited', u in requested')
    ensures Sound(recs[u := r], gen, total', waited', requested')
  {
    SumUpdate(recs, Bytes, u, r);
    var recs' := recs[u := r];
    forall v <- recs' ensures SoundAt(recs', gen, waited', requested', v) {
      if v != u {
        assert SoundAt(recs, gen, waited, requested, v);
        assert v in waited' - {u} <==> v in waited - {u};
        assert v in requested' - {u} <==> v in requested - {u};
      }
    }
  }
}
