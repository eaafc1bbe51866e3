/** The image cache: images by address, those waiting for them, the memory accounted and its collection. */
module ImageCache {
  import opened Wrappers
  import opened MapSums
  import opened ImageModel
  import opened ImageRuns

  class Image {
    const url: string
    var loaded: bool
    var failed: bool
    var purged: bool
    var bytes: nat
    var gen: nat
    var attempts: nat
    var status: int
    var failedAt: int
    var picture: Picture

    constructor (address: string)
      ensures url == address && Snap() == NEW_REC
    {
      url := address;
      loaded, failed, purged, bytes, gen := false, false, false, 0, 0;
      attempts, status, failedAt, picture := 0, 0, 0, NO_PICTURE;
    }

    ghost function Snap(): Rec
      reads this
    {
      Rec(loaded, failed, purged, bytes, gen, attempts, status, failedAt, picture)
    }

    method Record() returns (r: Rec)
      ensures r == Snap()
    {
      r := Rec(loaded, failed, purged, bytes, gen, attempts, status, failedAt, picture);
    }

    method DecodedSize() returns (total: nat)
      ensures total == DecodedBytes(picture)
    {
      if picture.frames == [] { return BytesOf(picture.texture); }
      total := 0;
      for i := 0 to |picture.frames|
        invariant total == FrameBytes(picture.frames[..i])
      {
        assert picture.frames[..i + 1][..i] == picture.frames[..i];
        total := total + BytesOf(picture.frames[i]);
      }
      assert picture.frames[..|picture.frames|] == picture.frames;
    }
  }

  /** Somebody waiting for an image: a request in the network or the decoder, or a further caller. */
  class Pending {
    const img: Image
    var cb: Option<nat>
    var userData: nat
    var dead: bool

    constructor (image: Image, callback: Option<nat>, user: nat)
      ensures img == image && cb == callback && userData == user && !dead
    {
      img, cb, userData, dead := image, callback, user, false;
    }
  }

  predicate Distinct(ps: seq<Pending>) {
    forall i, j :: 0 <= i < j < |ps| ==> ps[i] != ps[j]
  }

  ghost function Urls(ps: set<Pending>): set<string> { set p <- ps :: p.img.url }

  function Elements(ps: seq<Pending>): set<Pending> { set p <- ps }

  lemma UrlsAdd(ps: set<Pending>, p: Pending)
    ensures Urls(ps + {p}) == Urls(ps) + {p.img.url}
  {
  }

  // ---- Lists of those waiting ----

  /** Removing by moving the last into the gap. */
  function RemovedFast(ps: seq<Pending>, i: nat): seq<Pending>
    requires i < |ps|
  {
    ps[i := ps[|ps| - 1]][..|ps| - 1]
  }

  lemma RemoveFast(ps: seq<Pending>, i: nat)
    requires i < |ps| && Distinct(ps)
    ensures Distinct(RemovedFast(ps, i)) && Elements(RemovedFast(ps, i)) == Elements(ps) - {ps[i]}
    ensures forall j :: 0 <= j < i ==> RemovedFast(ps, i)[j] == ps[j]
  {
    var rs := RemovedFast(ps, i);
    forall p ensures p in rs <==> p in ps && p != ps[i] {
      if p in ps && p != ps[i] {
        var j :| 0 <= j < |ps| && ps[j] == p;
        assert p == rs[if j == |ps| - 1 then i else j];
      }
    }
  }

  class Cache {
    var byUrl: map<string, Image>
    var pending: seq<Pending>
    var gen: nat
    var totalBytes: int
    /** The record of every image, and those waiting that the network or the decoder will answer. */
    ghost var recs: map<string, Rec>
    ghost var requests: set<Pending>

    ghost predicate Linked()
      reads this`byUrl, this`recs, byUrl.Values
    {
      recs.Keys == byUrl.Keys && forall u {:trigger LinkedAt(u)} :: u in recs ==> LinkedAt(u)
    }

    ghost predicate LinkedAt(u: string)
      requires u in byUrl && u in recs
      reads this`byUrl, this`recs, byUrl[u]
    {
      byUrl[u].url == u && byUrl[u].Snap() == recs[u]
    }

    /** Those waiting wait for cached images, none of them twice in the list; every request is still in
        the list, and an image has at most one. */
    ghost predicate Queued()
      reads this`byUrl, this`pending, this`requests, pending
    {
      && Distinct(pending) && requests <= Elements(pending)
      && (forall p <- pending :: p.img.url in byUrl && byUrl[p.img.url] == p.img && !p.dead)
      && (forall p <- requests, q <- requests :: p.img.url == q.img.url ==> p == q)
    }

    ghost predicate Valid()
      reads this, byUrl.Values, pending
    {
      Linked() && Queued() && Sound(recs, gen, totalBytes, Urls(Elements(pending)), Urls(requests))
    }

    /** What the cache knows, as a value. */
    ghost function View(): Table
      reads this`recs, this`gen
    {
      Table(recs, gen)
    }

    constructor ()
      ensures Valid() && byUrl == map[] && View() == Table(map[], 0) && pending == [] && gen == 0 && totalBytes == 0
    {
      byUrl, pending, gen, totalBytes, recs, requests := map[], [], 0, 0, map[], {};
    }

    /** The accounted total is the sum over the images of the table. */
    lemma TotalIsSum()
      requires Valid()
      ensures totalBytes == Sum(recs, Bytes) && recs.Keys == byUrl.Keys
      ensures forall u <- byUrl :: byUrl[u].bytes == recs[u].bytes
    {
      forall u <- byUrl ensures byUrl[u].bytes == recs[u].bytes { assert LinkedAt(u); }
    }

    /** An image nothing is known of has exactly one request under way, any other has none; and every
        request is in the list of those waiting, so the answer to it finds it there. */
    lemma OneRequestEach(u: string)
      requires Valid() && u in byUrl
      ensures Unknown(recs[u]) <==> exists p <- requests :: p.img == byUrl[u]
      ensures forall p <- requests, q <- requests :: p.img == byUrl[u] && q.img == byUrl[u] ==> p == q
      ensures forall p <- requests :: p in pending
    {
      assert LinkedAt(u) && SoundAt(recs, gen, Urls(Elements(pending)), Urls(requests), u);
      if u in Urls(requests) {
        var p :| p in requests && p.img.url == u;
        assert p in pending;
      }
    }

    /** Addresses somebody waits for without a request under way. */
    ghost function Stranded(): set<string>
      reads this`pending, this`requests
    {
      Urls(Elements(pending)) - Urls(requests)
    }

    /** Only a request without any answer leaves somebody waiting so, and its image has failed; no
        operation but that answer adds to them. */
    lemma StrandedFailed(u: string)
      requires Valid() && u in Stranded()
      ensures u in byUrl && recs[u].failed
    {
      var p :| p in Elements(pending) && p.img.url == u;
      assert p in pending;
      assert SoundAt(recs, gen, Urls(Elements(pending)), Urls(requests), u);
    }

    // ---- Reading ----

    method HasPending(img: Image) returns (found: bool)
      ensures found <==> exists p <- pending :: !p.dead && p.img == img
    {
      for i := 0 to |pending|
        invariant forall j :: 0 <= j < i ==> pending[j].dead || pending[j].img != img
      {
        if !pending[i].dead && pending[i].img == img { return true; }
      }
      return false;
    }

    // ---- Accounting and purging ----

    method Account(img: Image)
      modifies img`bytes, img`gen, this`totalBytes
      ensures img.Snap() == Accounted(old(img.Snap()), gen)
      ensures totalBytes == old(totalBytes) + img.bytes - old(img.bytes)
    {
      if !img.loaded || img.bytes != 0 { return; }
      img.bytes := img.DecodedSize();
      img.gen := gen;
      totalBytes := totalBytes + img.bytes;
    }

    method Purge(img: Image)
      modifies img, this`totalBytes
      ensures img.Snap() == PurgedRec(old(img.Snap()))
      ensures totalBytes == old(totalBytes) - old(img.bytes)
    {
      totalBytes := totalBytes - img.bytes;
      img.bytes := 0;
      img.picture := NO_PICTURE;
      img.loaded := false;
      img.purged := true;
    }

    // ---- Collection ----

    /** An image of the oldest generation among those that may be thrown out, if there is any. */
    method FindVictim() returns (victim: Option<Image>)
      requires Valid()
      ensures victim.None? ==> forall u <- recs :: !Evictable(recs[u], gen, u in Urls(Elements(pending)))
      ensures victim.Some? ==>
        victim.value.url in byUrl && byUrl[victim.value.url] == victim.value &&
        Oldest(recs, gen, Urls(Elements(pending)), victim.value.url)
    {
      victim := None;
      var todo := byUrl.Keys;
      ghost var waiting := Urls(Elements(pending));
      while todo != {}
        invariant todo <= byUrl.Keys
        invariant victim.None? ==> forall u <- recs :: u !in todo ==> !Evictable(recs[u], gen, u in waiting)
        invariant victim.Some? ==>
          victim.value.url in byUrl && byUrl[victim.value.url] == victim.value &&
          OldestOf(recs, gen, waiting, todo, victim.value.url)
        decreases |todo|
      {
        var u :| u in todo;
        todo := todo - {u};
        var img := byUrl[u];
        assert LinkedAt(u);
        if !img.loaded || img.bytes == 0 { continue; }
        if img.gen == gen { continue; }
        var waited := HasPending(img);
        WaitedUrl(u);
        if waited { continue; }
        if victim.Some? { assert LinkedAt(victim.value.url); }
        if victim.None? || img.gen < victim.value.gen { victim := Some(img); }
      }
    }

    /** Throws images out, oldest generation first, until memory is within budget or nothing more may go. */
    method Collect() returns (ghost victims: seq<string>)
      requires Valid()
      modifies byUrl.Values, this`totalBytes, this`recs
      ensures Valid()
      ensures Made(old(View()), Op.Collect(victims), View())
      ensures Chosen(old(recs), old(totalBytes), gen, Urls(Elements(pending)), victims)
      ensures recs == PurgedAll(old(recs), victims)
      ensures totalBytes <= BUDGET_BYTES ||
              forall u <- recs :: !Evictable(recs[u], gen, u in Urls(Elements(pending)))
    {
      victims := CollectAll();
      VictimsLoaded(old(recs), old(totalBytes), gen, Urls(Elements(pending)), victims);
    }

    method CollectAll() returns (ghost victims: seq<string>)
      requires Valid()
      modifies byUrl.Values, this`totalBytes, this`recs
      ensures Valid()
      ensures Chosen(old(recs), old(totalBytes), gen, Urls(Elements(pending)), victims)
      ensures recs == PurgedAll(old(recs), victims)
      ensures totalBytes <= BUDGET_BYTES ||
              forall u <- recs :: !Evictable(recs[u], gen, u in Urls(Elements(pending)))
    {
      victims := [];
      while totalBytes > BUDGET_BYTES
        invariant Valid()
        invariant Chosen(old(recs), old(totalBytes), gen, Urls(Elements(pending)), victims)
        invariant recs == PurgedAll(old(recs), victims)
        invariant totalBytes == old(totalBytes) - Freed(old(recs), victims)
        decreases totalBytes
      {
        var victim := FindVictim();
        if victim.None? { break; }
        ghost var u := victim.value.url;
        ChosenOneMore(old(recs), old(totalBytes), gen, Urls(Elements(pending)), victims, u, totalBytes);
        PurgeCached(victim.value);
        victims := victims + [u];
      }
    }

    method PurgeCached(img: Image)
      requires Valid() && img.url in byUrl && byUrl[img.url] == img
      requires Evictable(recs[img.url], gen, img.url in Urls(Elements(pending)))
      modifies img, this`totalBytes, this`recs
      ensures Valid() && recs == old(recs)[img.url := PurgedRec(old(recs)[img.url])]
      ensures totalBytes == old(totalBytes) - old(recs)[img.url].bytes
    {
      ghost var u, waiting, requested := img.url, Urls(Elements(pending)), Urls(requests);
      assert LinkedAt(u) && SoundAt(recs, gen, waiting, requested, u);
      SoundUpdate(recs, gen, totalBytes, waiting, requested, u, PurgedRec(recs[u]),
                  totalBytes - recs[u].bytes, waiting, requested);
      Purge(img);
      assert forall v {:trigger LinkedAt(v)} :: v in recs && v != u ==> old(LinkedAt(v)) ==> LinkedAt(v);
      Note(u);
    }

    /** The records follow a change of one image. */
    ghost method Note(u: string)
      requires u in byUrl && byUrl[u].url == u && byUrl.Keys == recs.Keys + {u}
      requires forall v {:trigger LinkedAt(v)} :: v in recs && v != u ==> LinkedAt(v)
      modifies this`recs
      ensures Linked() && recs == old(recs)[u := byUrl[u].Snap()]
    {
      recs := recs[u := byUrl[u].Snap()];
      assert forall v {:trigger LinkedAt(v)} :: v in recs && v != u ==> old(LinkedAt(v)) ==> LinkedAt(v);
    }

    method BeginGeneration()
      requires Valid()
      modifies this`gen
      ensures Valid() && gen == old(gen) + 1
      ensures Made(old(View()), Op.BeginGeneration, View())
    {
      ghost var waiting, requested := Urls(Elements(pending)), Urls(requests);
      forall u <- recs ensures SoundAt(recs, gen + 1, waiting, requested, u) {
        assert SoundAt(recs, gen, waiting, requested, u);
      }
      gen := gen + 1;
    }

    // ---- Asking for an image ----

    /** Adds one who waits for a cached image. */
    method Wait(img: Image, cb: Option<nat>, userData: nat) returns (p: Pending)
      requires Queued() && img.url in byUrl && byUrl[img.url] == img
      modifies this`pending
      ensures fresh(p) && Queued() && AddedOne(old(pending), pending, img, cb, userData)
      ensures p == pending[|pending| - 1]
      ensures Urls(Elements(pending)) == Urls(Elements(old(pending))) + {img.url}
    {
      p := new Pending(img, cb, userData);
      UrlsAdd(Elements(pending), p);
      pending := pending + [p];
      assert Elements(pending) == Elements(old(pending)) + {p};
    }

    method StartRequest(img: Image, cb: Option<nat>, userData: nat)
      requires Queued() && img.url in byUrl && byUrl[img.url] == img && img.url !in Urls(requests)
      modifies img`attempts, this`pending, this`requests
      ensures Queued() && AddedOne(old(pending), pending, img, cb, userData)
      ensures requests == old(requests) + {pending[|pending| - 1]}
      ensures Urls(Elements(pending)) == Urls(Elements(old(pending))) + {img.url}
      ensures Urls(requests) == Urls(old(requests)) + {img.url}
      ensures img.Snap() == old(img.Snap()).(attempts := old(img.attempts) + 1)
    {
      var p := Wait(img, cb, userData);
      img.attempts := img.attempts + 1;
      NoteRequest(p);
    }

    ghost method NoteRequest(p: Pending)
      requires Queued() && p in pending && p.img.url !in Urls(requests)
      modifies this`requests
      ensures Queued() && requests == old(requests) + {p}
      ensures Urls(requests) == Urls(old(requests)) + {p.img.url}
    {
      assert forall q <- requests :: q.img.url in Urls(requests);
      UrlsAdd(requests, p);
      requests := requests + {p};
    }

    /** The same caller waits for the image already. */
    method WaitsAlready(img: Image, cb: Option<nat>, userData: nat) returns (dup: bool)
      ensures dup <==> Waits(pending, img, cb, userData)
    {
      for i := 0 to |pending|
        invariant forall j :: 0 <= j < i ==>
          !(!pending[j].dead && pending[j].img == img && pending[j].cb == cb && pending[j].userData == userData)
      {
        var p := pending[i];
        if !p.dead && p.img == img && p.cb == cb && p.userData == userData { return true; }
      }
      return false;
    }

    /** The image of an address that has been asked for before.  A request starts when its picture was
        thrown out, or when it failed and may be tried again; a caller is answered at once when the
        outcome is known, and waits otherwise, once however often it asks. */
    method GetCached(img: Image, cb: Option<nat>, userData: nat, now: int, enabled: bool) returns (called: bool)
      requires Valid() && img.url in byUrl && byUrl[img.url] == img
      modifies img, this`pending, this`requests, this`recs
      ensures Valid() && Stranded() <= old(Stranded())
      ensures recs == old(recs)[img.url := Got(old(recs)[img.url], now, enabled, gen)]
      ensures var r := old(recs)[img.url];
        && called == (cb.Some? && !(enabled && Starts(r, now)) && (r.loaded || r.failed))
        && (if enabled && Starts(r, now)
            then AddedOne(old(pending), pending, img, cb, userData) &&
                 requests == old(requests) + {pending[|pending| - 1]}
            else requests == old(requests) &&
                 if enabled && Unknown(r) && cb.Some? && !old(Waits(pending, img, cb, userData))
                 then AddedOne(old(pending), pending, img, cb, userData) else pending == old(pending))
    {
      ghost var u, r := img.url, recs[img.url];
      ghost var waiting, requested := Urls(Elements(pending)), Urls(requests);
      assert LinkedAt(u) && SoundAt(recs, gen, waiting, requested, u);
      called := GetUnlinked(img, cb, userData, now, enabled);
      assert forall v {:trigger LinkedAt(v)} :: v in recs && v != u ==> old(LinkedAt(v)) ==> LinkedAt(v);
      Note(u);
      SoundUpdate(old(recs), gen, totalBytes, waiting, requested, u, recs[u], totalBytes,
                  Urls(Elements(pending)), Urls(requests));
    }

    /** Its effect on the image and the lists. */
    method GetUnlinked(img: Image, cb: Option<nat>, userData: nat, now: int, enabled: bool) returns (called: bool)
      requires Queued() && img.url in byUrl && byUrl[img.url] == img
      requires RecOk(img.Snap(), gen, img.url in Urls(Elements(pending)), img.url in Urls(requests))
      modifies img, this`pending, this`requests
      ensures Queued() && img.Snap() == Got(old(img.Snap()), now, enabled, gen)
      ensures Stranded() <= old(Stranded())
      ensures RecOk(img.Snap(), gen, img.url in Urls(Elements(pending)), img.url in Urls(requests))
      ensures Urls(Elements(pending)) - {img.url} == Urls(Elements(old(pending))) - {img.url}
      ensures Urls(requests) - {img.url} == Urls(old(requests)) - {img.url}
      ensures var r := old(img.Snap());
        && called == (cb.Some? && !(enabled && Starts(r, now)) && (r.loaded || r.failed))
        && (if enabled && Starts(r, now)
            then AddedOne(old(pending), pending, img, cb, userData) &&
                 requests == old(requests) + {pending[|pending| - 1]}
            else requests == old(requests) &&
                 if enabled && Unknown(r) && cb.Some? && !old(Waits(pending, img, cb, userData))
                 then AddedOne(old(pending), pending, img, cb, userData) else pending == old(pending))
    {
      img.gen := gen;
      if !enabled { return cb.Some? && (img.loaded || img.failed); }
      var starts := Restart(img, cb, userData, now);
      if starts { return false; }
      called := AnswerOrWait(img, cb, userData);
    }

    /** Starts a request for a picture thrown out, or one that failed and may be tried again. */
    method Restart(img: Image, cb: Option<nat>, userData: nat, now: int) returns (starts: bool)
      requires Queued() && img.url in byUrl && byUrl[img.url] == img && img.gen <= gen
      requires RecOk(img.Snap(), gen, img.url in Urls(Elements(pending)), img.url in Urls(requests))
      modifies img, this`pending, this`requests
      ensures Queued() && starts == Starts(old(img.Snap()), now)
      ensures img.Snap() == Got(old(img.Snap()), now, true, old(img.gen))
      ensures starts ==>
        && AddedOne(old(pending), pending, img, cb, userData)
        && requests == old(requests) + {pending[|pending| - 1]}
        && Urls(Elements(pending)) == Urls(Elements(old(pending))) + {img.url}
        && Urls(requests) == Urls(old(requests)) + {img.url}
      ensures !starts ==> pending == old(pending) && requests == old(requests)
    {
      starts := true;
      var waited := HasPending(img);
      assert img.purged ==> !waited by {
        if waited { HasPendingUrl(img); }
      }
      if img.purged && !waited {
        img.purged := false;
        StartRequest(img, cb, userData);
        return;
      }
      var r := img.Record();
      if ShouldRetry(r, now) {
        img.failed := false;
        img.status := 0;
        img.failedAt := 0;
        StartRequest(img, cb, userData);
        return;
      }
      starts := false;
    }

    lemma HasPendingUrl(img: Image)
      requires exists p <- pending :: !p.dead && p.img == img
      ensures img.url in Urls(Elements(pending))
    {
      var p :| p in pending && !p.dead && p.img == img;
      assert p in Elements(pending);
    }

    /** The caller is answered at once, or added to those waiting if it does not wait already. */
    method AnswerOrWait(img: Image, cb: Option<nat>, userData: nat) returns (called: bool)
      requires Queued() && img.url in byUrl && byUrl[img.url] == img
      modifies this`pending
      ensures Queued() && called == (cb.Some? && (img.loaded || img.failed))
      ensures Urls(Elements(pending)) ==
        Urls(Elements(old(pending))) + if pending == old(pending) then {} else {img.url}
      ensures if !(img.loaded || img.failed) && cb.Some? && !old(Waits(pending, img, cb, userData))
              then AddedOne(old(pending), pending, img, cb, userData) else pending == old(pending)
    {
      called := false;
      if img.loaded || img.failed {
        called := cb.Some?;
      } else if cb.Some? {
        var dup := WaitsAlready(img, cb, userData);
        if !dup { var _ := Wait(img, cb, userData); }
      }
    }

    /** The first time an address is asked for. */
    method GetNew(url: string, cb: Option<nat>, userData: nat, enabled: bool) returns (img: Image, called: bool)
      requires Valid() && url !in byUrl
      modifies this`byUrl, this`pending, this`requests, this`recs
      ensures Valid() && fresh(img) && img.url == url && byUrl == old(byUrl)[url := img]
      ensures Stranded() == old(Stranded())
      ensures recs == old(recs)[url := FirstGot(enabled)]
      ensures called == (!enabled && cb.Some?)
      ensures enabled ==> AddedOne(old(pending), pending, img, cb, userData) &&
                          requests == old(requests) + {pending[|pending| - 1]}
      ensures !enabled ==> pending == old(pending) && requests == old(requests)
    {
      ghost var waiting, requested := Urls(Elements(pending)), Urls(requests);
      img := AddImage(url);
      called := !enabled && cb.Some?;
      AskFirst(img, cb, userData, enabled);
      Note(url);
      SoundUpdate(old(recs), gen, totalBytes, waiting, requested, url, recs[url], totalBytes,
                  Urls(Elements(pending)), Urls(requests));
    }

    /** The first request for a new image, unless images are off. */
    method AskFirst(img: Image, cb: Option<nat>, userData: nat, enabled: bool)
      requires Queued() && img.url in byUrl && byUrl[img.url] == img && recs.Keys <= byUrl.Keys && img.url !in recs
      requires img.Snap() == NEW_REC && img.url !in Urls(requests)
      requires forall v {:trigger LinkedAt(v)} :: v in recs ==> LinkedAt(v)
      modifies img, this`pending, this`requests
      ensures Queued() && forall v {:trigger LinkedAt(v)} :: v in recs ==> LinkedAt(v)
      ensures img.Snap() == FirstGot(enabled)
      ensures enabled ==>
        && AddedOne(old(pending), pending, img, cb, userData)
        && requests == old(requests) + {pending[|pending| - 1]}
        && Urls(Elements(pending)) == Urls(Elements(old(pending))) + {img.url}
        && Urls(requests) == Urls(old(requests)) + {img.url}
      ensures !enabled ==> pending == old(pending) && requests == old(requests)
    {
      if !enabled {
        img.failed := true;
      } else {
        StartRequest(img, cb, userData);
      }
      assert forall v {:trigger LinkedAt(v)} :: v in recs ==> old(LinkedAt(v)) ==> LinkedAt(v);
    }

    /** A new image in the table, not yet in the records. */
    method AddImage(url: string) returns (img: Image)
      requires Linked() && Queued() && url !in byUrl
      modifies this`byUrl
      ensures fresh(img) && img.url == url && img.Snap() == NEW_REC && byUrl == old(byUrl)[url := img]
      ensures Queued() && forall v {:trigger LinkedAt(v)} :: v in recs ==> LinkedAt(v)
      ensures url !in Urls(Elements(pending)) && url !in Urls(requests)
    {
      UnknownUrl(url);
      img := new Image(url);
      byUrl := byUrl[url := img];
      assert forall v {:trigger LinkedAt(v)} :: v in recs ==> old(LinkedAt(v)) ==> LinkedAt(v);
    }

    /** Nobody waits for an address never asked for. */
    lemma UnknownUrl(url: string)
      requires Queued() && url !in byUrl
      ensures url !in Urls(Elements(pending)) && url !in Urls(requests)
    {
    }

    method Get(url: string, cb: Option<nat>, userData: nat, now: int, enabled: bool)
      returns (img: Image, called: bool)
      requires Valid()
      modifies this`byUrl, this`pending, this`requests, this`recs, byUrl.Values
      ensures Valid() && url in byUrl && byUrl[url] == img && Stranded() <= old(Stranded())
      ensures Made(old(View()), Op.Get(url, now, enabled), View())
      ensures recs == old(recs)[url :=
        if url in old(recs) then Got(old(recs)[url], now, enabled, gen)
        else FirstGot(enabled)]
      ensures var known := url in old(recs);
        var r := if known then old(recs)[url] else NEW_REC;
        var starts := enabled && (!known || Starts(r, now));
        && called == (cb.Some? && !starts && (r.loaded || r.failed || !known))
        && (if starts
            then AddedOne(old(pending), pending, img, cb, userData) &&
                 requests == old(requests) + {pending[|pending| - 1]}
            else requests == old(requests) &&
                 if known && enabled && Unknown(r) && cb.Some? && !old(Waits(pending, byUrl[url], cb, userData))
                 then AddedOne(old(pending), pending, img, cb, userData) else pending == old(pending))
    {
      if url in byUrl {
        img := byUrl[url];
        assert LinkedAt(url);
        called := GetCached(img, cb, userData, now, enabled);
      } else {
        img, called := GetNew(url, cb, userData, enabled);
      }
    }

    /** A picture decoded elsewhere, for an address not asked for yet. */
    method InsertLoaded(url: string, texture: Size) returns (img: Image)
      requires Valid()
      modifies this`byUrl, this`totalBytes, this`recs
      ensures Valid() && url in byUrl && byUrl[url] == img
      ensures Made(old(View()), Op.Insert(url, texture), View())
      ensures url in old(byUrl) ==> byUrl == old(byUrl) && recs == old(recs) && totalBytes == old(totalBytes)
      ensures url !in old(byUrl) ==>
        recs == old(recs)[url := Inserted(texture, gen)]
    {
      if url in byUrl { return byUrl[url]; }
      ghost var waiting, requested := Urls(Elements(pending)), Urls(requests);
      img := AddImage(url);
      LoadNew(img, texture);
      Note(url);
      SoundUpdate(old(recs), gen, old(totalBytes), waiting, requested, url, recs[url], totalBytes, waiting, requested);
    }

    method LoadNew(img: Image, texture: Size)
      requires img.url !in recs && recs.Keys <= byUrl.Keys && img.Snap() == NEW_REC
      requires forall v {:trigger LinkedAt(v)} :: v in recs ==> LinkedAt(v)
      modifies img, this`totalBytes
      ensures img.Snap() == Inserted(texture, gen)
      ensures totalBytes == old(totalBytes) + img.bytes
      ensures forall v {:trigger LinkedAt(v)} :: v in recs ==> LinkedAt(v)
    {
      img.picture := Picture([], Some(texture));
      img.loaded := true;
      Account(img);
      assert forall v {:trigger LinkedAt(v)} :: v in recs ==> old(LinkedAt(v)) ==> LinkedAt(v);
    }

    method Peek(url: string) returns (img: Option<Image>)
      requires Valid()
      modifies byUrl.Values, this`recs
      ensures Valid()
      ensures Made(old(View()), Op.Peek(url), View())
      ensures url !in old(recs) ==> img == None && recs == old(recs)
      ensures url in old(recs) ==>
        img == Some(byUrl[url]) && recs == old(recs)[url := old(recs)[url].(gen := gen)]
    {
      if url !in byUrl { return None; }
      ghost var waiting, requested := Urls(Elements(pending)), Urls(requests);
      assert LinkedAt(url) && SoundAt(recs, gen, waiting, requested, url);
      byUrl[url].gen := gen;
      assert forall v {:trigger LinkedAt(v)} :: v in recs && v != url ==> old(LinkedAt(v)) ==> LinkedAt(v);
      Note(url);
      SoundUpdate(old(recs), gen, totalBytes, waiting, requested, url, recs[url], totalBytes, waiting, requested);
      return Some(byUrl[url]);
    }

    /** The callers of a document that goes away are no longer called back; they stay in the list. */
    method CancelCallbacks(userData: nat)
      requires Valid()
      modifies pending
      ensures Valid()
      ensures Made(old(View()), Op.CancelCallbacks, View())
      ensures forall p <- pending :: p.userData == (if old(p.userData) == userData then 0 else old(p.userData))
      ensures forall p <- pending :: p.cb == (if old(p.userData) == userData then None else old(p.cb))
    {
      for i := 0 to |pending|
        invariant forall p <- pending :: !p.dead
        invariant forall j :: 0 <= j < i ==>
          pending[j].userData == (if old(pending[j].userData) == userData then 0 else old(pending[j].userData)) &&
          pending[j].cb == (if old(pending[j].userData) == userData then None else old(pending[j].cb))
        invariant forall j :: i <= j < |pending| ==>
          pending[j].userData == old(pending[j].userData) && pending[j].cb == old(pending[j].cb)
      {
        var p := pending[i];
        if p.userData == userData {
          p.cb := None;
          p.userData := 0;
        }
      }
      assert forall v {:trigger LinkedAt(v)} :: v in recs ==> old(LinkedAt(v)) ==> LinkedAt(v);
    }

    // ---- Answers ----

    /** Takes everybody waiting for an image out of the list; they are then called back in that order. */
    method FirePending(img: Image) returns (fired: seq<Pending>)
      requires Distinct(pending)
      modifies this`pending
      ensures Distinct(pending) && Distinct(fired)
      ensures Elements(pending) == set p <- old(pending) | p.img != img
      ensures Elements(fired) == set p <- old(pending) | p.img == img
    {
      fired := [];
      var i := 0;
      while i < |pending|
        invariant 0 <= i <= |pending| && Distinct(pending) && Distinct(fired)
        invariant forall j :: 0 <= j < i ==> pending[j].img != img
        invariant forall p <- fired :: p.img == img
        invariant Elements(pending) !! Elements(fired)
        invariant Elements(pending) + Elements(fired) == Elements(old(pending))
        decreases |pending| - i
      {
        var p := pending[i];
        if p.img == img {
          RemoveFast(pending, i);
          assert p in Elements(pending);
          pending := RemovedFast(pending, i);
          assert p !in Elements(fired);
          fired := fired + [p];
          assert Elements(fired) == Elements(fired[..|fired| - 1]) + {p};
        } else {
          i := i + 1;
        }
      }
      assert forall p :: p in old(pending) <==> p in Elements(old(pending));
      assert forall p :: p in pending <==> p in Elements(pending);
      assert forall p :: p in fired <==> p in Elements(fired);
    }

    /** Takes one out of the list. */
    method Remove(p: Pending)
      requires Distinct(pending) && p in pending
      modifies this`pending
      ensures Distinct(pending) && Elements(pending) == Elements(old(pending)) - {p}
    {
      var i := 0;
      while pending[i] != p
        invariant 0 <= i < |pending| && p in pending[i..]
        decreases |pending| - i
      {
        i := i + 1;
      }
      RemoveFast(pending, i);
      pending := RemovedFast(pending, i);
    }

    /** A request is over: the address has no other. */
    ghost method Close(p: Pending)
      requires p in requests && Distinct(pending) && requests - {p} <= Elements(pending)
      requires forall q <- pending :: q.img.url in byUrl && byUrl[q.img.url] == q.img && !q.dead
      requires forall q <- requests, r <- requests :: q.img.url == r.img.url ==> q == r
      modifies this`requests
      ensures Queued() && requests == old(requests) - {p}
      ensures Urls(requests) == Urls(old(requests)) - {p.img.url}
    {
      requests := requests - {p};
    }

    /** Those left when everybody waiting for an image has been told. */
    lemma LeftUrls(before: seq<Pending>, img: Image)
      requires img.url in byUrl && byUrl[img.url] == img
      requires forall q <- before :: q.img.url in byUrl && byUrl[q.img.url] == q.img
      ensures Urls(set q <- before | q.img != img) == Urls(Elements(before)) - {img.url}
    {
      var left := set q <- before | q.img != img;
      forall u ensures u in Urls(left) <==> u in Urls(Elements(before)) - {img.url} {
        if u in Urls(Elements(before)) && u != img.url {
          var q :| q in Elements(before) && q.img.url == u;
          assert q in left;
        }
      }
    }

    /** Accounts an image whose outcome is known and tells everybody waiting for it. */
    method Finish(p: Pending) returns (told: seq<Pending>)
      requires Queued() && p in requests
      modifies p.img`bytes, p.img`gen, this`pending, this`requests, this`totalBytes
      ensures Queued() && requests == old(requests) - {p}
      ensures p.img.Snap() == Accounted(old(p.img.Snap()), gen)
      ensures totalBytes == old(totalBytes) + p.img.bytes - old(p.img.bytes)
      ensures Distinct(told) && Elements(told) == set q <- old(pending) | q.img == p.img
      ensures Elements(pending) == set q <- old(pending) | q.img != p.img
      ensures Urls(Elements(pending)) == Urls(Elements(old(pending))) - {p.img.url}
      ensures Urls(requests) == Urls(old(requests)) - {p.img.url}
    {
      assert p in pending;
      Account(p.img);
      told := FirePending(p.img);
      LeftUrls(old(pending), p.img);
      assert forall q <- pending :: q in Elements(pending);
      assert forall q <- requests :: q in old(pending) && (q.img == p.img ==> q == p);
      Close(p);
    }

    /** Nobody answers: only the request's own caller is told. */
    method GiveUp(p: Pending) returns (told: seq<Pending>)
      requires Queued() && p in requests
      modifies this`pending, this`requests
      ensures Queued() && requests == old(requests) - {p}
      ensures told == [p] && Elements(pending) == Elements(old(pending)) - {p}
      ensures Urls(Elements(pending)) - {p.img.url} == Urls(Elements(old(pending))) - {p.img.url}
      ensures Urls(requests) == Urls(old(requests)) - {p.img.url}
    {
      told := [p];
      Remove(p);
      assert forall q <- pending :: q in Elements(pending);
      Close(p);
    }

    method Apply(img: Image, content: Content, now: int)
      modifies img`picture, img`loaded, img`failed, img`failedAt
      ensures img.Snap() == Applied(old(img.Snap()), content, now)
    {
      match content
      case Decoded(picture) =>
        img.picture := picture;
        img.loaded := true;
      case Undecodable =>
        img.failed := true;
        img.failedAt := now;
    }

    /** The decoder answers a request. */
    method OnDecoded(p: Pending, content: Content, now: int) returns (told: seq<Pending>)
      requires Valid() && p in requests
      modifies p.img, this`pending, this`requests, this`totalBytes, this`recs
      ensures Valid() && requests == old(requests) - {p} && Stranded() == old(Stranded())
      ensures Made(old(View()), Op.Decode(p.img.url, content, now), View())
      ensures recs == old(recs)[p.img.url := Accounted(Applied(old(recs)[p.img.url], content, now), gen)]
      ensures Distinct(told) && Elements(told) == set q <- old(pending) | q.img == p.img
      ensures Elements(pending) == set q <- old(pending) | q.img != p.img
    {
      ghost var u := p.img.url;
      ghost var waiting, requested := Urls(Elements(pending)), Urls(requests);
      RequestFacts(p);
      Apply(p.img, content, now);
      told := Finish(p);
      assert forall v {:trigger LinkedAt(v)} :: v in recs && v != u ==> old(LinkedAt(v)) ==> LinkedAt(v);
      Note(u);
      SoundUpdate(old(recs), gen, old(totalBytes), waiting, requested, u, recs[u], totalBytes,
                  Urls(Elements(pending)), Urls(requests));
    }

    /** The network answers a request.  Unless the body goes to the decoder the request is over: on no
        answer at all its own caller is told, and otherwise everybody waiting for the image. */
    method OnFetched(p: Pending, resp: Response, now: int) returns (told: seq<Pending>)
      requires Valid() && p in requests
      modifies p.img, this`pending, this`requests, this`totalBytes, this`recs
      ensures Valid()
      ensures Made(old(View()), Op.Fetch(p.img.url, resp, now), View())
      ensures recs == old(recs)[p.img.url := Fetched(old(recs)[p.img.url], resp, now, gen)]
      ensures requests == if resp.Later? then old(requests) else old(requests) - {p}
      ensures resp.Later? ==> pending == old(pending) && told == []
      ensures resp.NoResponse? ==> told == [p] && Elements(pending) == Elements(old(pending)) - {p}
      ensures resp.Refused? || resp.Body? ==>
        && Distinct(told) && Elements(told) == (set q <- old(pending) | q.img == p.img)
        && Elements(pending) == set q <- old(pending) | q.img != p.img
      ensures !resp.NoResponse? ==> Stranded() == old(Stranded())
      ensures resp.NoResponse? ==>
        Stranded() == old(Stranded()) + (if OtherWaits(old(pending), p) then {p.img.url} else {})
    {
      ghost var u := p.img.url;
      ghost var waiting, requested := Urls(Elements(pending)), Urls(requests);
      RequestFacts(p);
      told := Settle(p, resp, now);
      assert forall v {:trigger LinkedAt(v)} :: v in recs && v != u ==> old(LinkedAt(v)) ==> LinkedAt(v);
      Note(u);
      SoundUpdate(old(recs), gen, old(totalBytes), waiting, requested, u, recs[u], totalBytes,
                  Urls(Elements(pending)), Urls(requests));
    }

    /** Its effect on the image and the lists. */
    method Settle(p: Pending, resp: Response, now: int) returns (told: seq<Pending>)
      requires Queued() && p in requests && Unknown(p.img.Snap()) && p.img.bytes == 0
      modifies p.img, this`pending, this`requests, this`totalBytes
      ensures Queued() && p.img.Snap() == Fetched(old(p.img.Snap()), resp, now, gen)
      ensures totalBytes == old(totalBytes) + p.img.bytes
      ensures resp.Later? ==> pending == old(pending) && requests == old(requests) && told == []
      ensures !resp.Later? ==>
        && requests == old(requests) - {p}
        && Urls(requests) == Urls(old(requests)) - {p.img.url}
        && Urls(Elements(pending)) - {p.img.url} == Urls(Elements(old(pending))) - {p.img.url}
      ensures resp.NoResponse? ==> told == [p] && Elements(pending) == Elements(old(pending)) - {p}
      ensures resp.Refused? || resp.Body? ==>
        && Distinct(told) && Elements(told) == (set q <- old(pending) | q.img == p.img)
        && Elements(pending) == (set q <- old(pending) | q.img != p.img)
        && p.img.url !in Urls(Elements(pending))
      ensures !resp.NoResponse? ==> Stranded() == old(Stranded())
      ensures resp.NoResponse? ==>
        Stranded() == old(Stranded()) + (if OtherWaits(old(pending), p) then {p.img.url} else {})
    {
      match resp
      case NoResponse =>
        p.img.failed := true;
        p.img.failedAt := now;
        told := GiveUp(p);
      case Later(st) =>
        p.img.status := st;
        told := [];
      case Refused(st) =>
        p.img.status := st;
        p.img.failed := true;
        p.img.failedAt := now;
        told := Finish(p);
      case Body(st, content) =>
        p.img.status := st;
        Apply(p.img, content, now);
        told := Finish(p);
    }

    /** A request is for a cached image nothing is known of yet. */
    lemma RequestFacts(p: Pending)
      requires Valid() && p in requests
      ensures p in pending && p.img.url in byUrl && byUrl[p.img.url] == p.img
      ensures p.img.Snap() == recs[p.img.url] && Unknown(recs[p.img.url])
      ensures recs[p.img.url].bytes == 0 && recs[p.img.url].gen <= gen
    {
      assert LinkedAt(p.img.url);
      assert SoundAt(recs, gen, Urls(Elements(pending)), Urls(requests), p.img.url);
      assert p.img.url in Urls(requests);
    }

    /** Somebody waits for the image exactly when its address is among those waited for. */
    lemma WaitedUrl(u: string)
      requires Valid() && u in byUrl
      ensures u in Urls(Elements(pending)) <==> exists p <- pending :: !p.dead && p.img == byUrl[u]
    {
      assert LinkedAt(u);
      if u in Urls(Elements(pending)) {
        var p :| p in Elements(pending) && p.img.url == u;
        assert p in pending;
      }
    }
  }

  /** Somebody else waits for the same image. */
  predicate OtherWaits(ps: seq<Pending>, p: Pending) {
    exists q <- ps :: q != p && q.img == p.img
  }

  /** The caller is in the list of those waiting for the image. */
  ghost predicate Waits(ps: seq<Pending>, img: Image, cb: Option<nat>, userData: nat)
    reads ps
  {
    exists p <- ps :: !p.dead && p.img == img && p.cb == cb && p.userData == userData
  }

  predicate AddedOne(before: seq<Pending>, after: seq<Pending>, img: Image, cb: Option<nat>, userData: nat)
    reads after
  {
    |after| == |before| + 1 && after[..|before|] == before &&
    var p := after[|before|]; p !in before && p.img == img && p.cb == cb && p.userData == userData && !p.dead
  }

  lemma ChosenOneMore(recs: map<string, Rec>, total: int, gen: nat, waited: set<string>,
                      victims: seq<string>, u: string, now: int)
    requires Chosen(recs, total, gen, waited, victims) && now == total - Freed(recs, victims) > BUDGET_BYTES
    requires Oldest(PurgedAll(recs, victims), gen, waited, u)
    ensures Chosen(recs, total, gen, waited, victims + [u])
    ensures PurgedAll(recs, victims + [u]) == PurgedAll(recs, victims)[u := PurgedRec(PurgedAll(recs, victims)[u])]
    ensures Freed(recs, victims + [u]) == Freed(recs, victims) + PurgedAll(recs, victims)[u].bytes
    ensures PurgedAll(recs, victims)[u].bytes > 0
  {
    assert (victims + [u])[..|victims|] == victims;
    PurgedAt(recs, victims, u);
  }

  /** The oldest of those gone through that may be thrown out. */
  ghost predicate OldestOf(recs: map<string, Rec>, gen: nat, waited: set<string>, todo: set<string>, u: string) {
    u in recs && Evictable(recs[u], gen, u in waited) &&
    forall v <- recs :: v !in todo && Evictable(recs[v], gen, v in waited) ==> recs[u].gen <= recs[v].gen
  }

  lemma VictimsLoaded(recs: map<string, Rec>, total: int, gen: nat, waited: set<string>, victims: seq<string>)
    requires Chosen(recs, total, gen, waited, victims)
    ensures forall v <- victims :: v in recs && recs[v].loaded
  {
    forall i | 0 <= i < |victims| ensures victims[i] in recs && recs[victims[i]].loaded {
      ChosenMeans(recs, total, gen, waited, victims, i);
    }
  }
}
