/** Interrupted transfers of one payload: fetches come and go, the process may die
    between any two steps, and a later fetch resumes from what is on disk
    (clients/node/index.js, clients/node/lib/store.js). */
module Resume {
  import opened Wire
  import opened IdSets
  import Codec = PullCodec
  import Pull = PullModel
  import Safety = PullSafety
  import opened PartialStore
  import Turns = FetchTurns

  /** The payload, its pid and the checksum in force. */
  datatype Subject = Subject(pid: u16, payload: bytes, crc32: Checksum)

  predicate Carriable(x: Subject) {
    Safety.Carriable(map[x.pid := x.payload])
  }

  /** What is on disk, the client of the fetch under way, if one is, and whether that
      fetch has loaded what is on disk and entered its chunk loop. */
  datatype World = World(files: Files, client: Option<Pull.Client>, looping: bool)

  const START := World(NOTHING, None, false)

  datatype Event =
    | Open                             // a fetch starts, and its manifest arrives
    | Hear(frame: Option<Codec.Frame>, at: int)
    | Begin                            // it loads the partial, seeds, and starts to pull
    | Save                             // both files written
    | DieInSave                        // the process dies between the two writes
    | Clear                            // both files removed, the fetch ends
    | DieInClear                       // the process dies between the two deletes
    | End                              // the fetch throws, or the process dies

  function Announced(x: Subject): Pull.Client
    requires Carriable(x)
  {
    assert x.pid in map[x.pid := x.payload];
    Pull.OnFrame(Pull.FRESH,
                 Some(Codec.Manifest(x.pid, 2, |x.payload|, Safety.Count(x.payload), x.crc32(x.payload))), 0)
  }

  /** Seed from a partial of this exact identity, discard one of another. */
  function BeginFetch(c: Pull.Client, f: Files): World {
    match Load(f)
    case None => World(f, Some(c), true)
    case Some(p) =>
      if p.meta.crc == c.crc && p.meta.count == c.count && p.meta.length == c.length then
        World(f, Some(Pull.Seed(c, p.buf, p.meta.have)), true)
      else World(NOTHING, Some(c), true)
  }

  /** It does to the client and the files what the fetch itself does. */
  lemma BeginResumes(c: Pull.Client, f: Files)
    requires |c.buf| == c.length
    ensures var w := BeginFetch(c, f);
            && w.looping && w.client.Some? && Turns.Resumed(c, f, w.client.value)
            && w.files == Turns.FilesAfterResume(c, f)
  {
  }

  function Step(x: Subject, w: World, e: Event): World
    requires Carriable(x)
  {
    match e
    case Open => World(w.files, Some(Announced(x)), false)
    case End => World(w.files, None, false)
    case _ =>
      if w.client.None? then w
      else
        var c := w.client.value;
        match e
        case Hear(frame, at) => w.(client := Some(Pull.OnFrame(c, frame, at)))
        case Begin => if w.looping then w else BeginFetch(c, w.files)
        case _ => if w.looping then InLoop(w.files, c, e) else w
  }

  /** What the chunk loop does to the files. */
  function InLoop(f: Files, c: Pull.Client, e: Event): World {
    match e
    case Save => World(Files(Some(c.buf), Some(MetaOf(c.pid, c.crc, c.count, c.length, c.have))), Some(c), true)
    case DieInSave => World(f.(buf := Some(c.buf)), None, false)
    case Clear => World(NOTHING, None, false)
    case DieInClear => World(f.(buf := None), None, false)
    case _ => World(f, Some(c), true)
  }

  function Run(x: Subject, w: World, events: seq<Event>): World
    requires Carriable(x)
    decreases |events|
  {
    if events == [] then w else Run(x, Step(x, w, events[0]), events[1..])
  }

  // ---- which histories are safe -----------------------------------------------------------

  /** These bytes are the payload's on every chunk the claims name. */
  predicate Backs(x: Subject, buf: bytes, claims: set<nat>) {
    Safety.Backed(x.payload, buf, claims)
  }

  /** What every fetch starts its buffer with is as good as the buffer file: there is no
      sidecar, or the payload is all zeros on every chunk it claims. */
  predicate Spared(x: Subject, f: Files) {
    f.meta.None? || Backs(x, Pull.Zeros(|x.payload|), f.meta.value.have)
  }

  /** Frames come from a device that holds the payload; a chunk that arrives before the
      partial is loaded agrees with it; a clear is cut in half only where that is spared. */
  predicate Careful(x: Subject, w: World, e: Event)
    requires Carriable(x)
  {
    match e
    case Hear(frame, _) => Safety.Honest(map[x.pid := x.payload], x.crc32, frame)
    case Begin => w.client.Some? && !w.looping && Load(w.files).Some? ==>
                    Safety.Agrees(w.client.value, Load(w.files).value.buf, Load(w.files).value.meta.have)
    case DieInClear => w.client.Some? && w.looping ==> Spared(x, w.files)
    case _ => true
  }

  predicate AllCareful(x: Subject, w: World, events: seq<Event>)
    requires Carriable(x)
    decreases |events|
  {
    events != [] ==> Careful(x, w, events[0]) && AllCareful(x, Step(x, w, events[0]), events[1..])
  }

  // ---- the invariant -------------------------------------------------------------

  predicate OfSubject(x: Subject, m: Meta)
    requires Carriable(x)
  {
    assert x.pid in map[x.pid := x.payload];
    m.crc == x.crc32(x.payload) && m.count == Safety.Count(x.payload) && m.length == |x.payload|
  }

  /** A sidecar's claims are backed by the buffer file, or, if that is gone, by zeros. */
  predicate FilesBacked(x: Subject, f: Files)
    requires Carriable(x)
  {
    f.meta.Some? ==>
      && OfSubject(x, f.meta.value)
      && (if f.buf.Some? then Backs(x, f.buf.value, f.meta.value.have) else Spared(x, f))
  }

  predicate OnSubject(x: Subject, c: Pull.Client)
    requires Carriable(x)
  {
    c.haveManifest && Safety.Inv(map[x.pid := x.payload], x.crc32, c)
  }

  /** ... and by the client's own buffer, once it has loaded what there is to load. */
  predicate Inv(x: Subject, w: World)
    requires Carriable(x)
  {
    && FilesBacked(x, w.files)
    && (w.client.Some? ==>
          && OnSubject(x, w.client.value)
          && (w.files.meta.Some? && (w.looping || w.files.buf.None?) ==>
                Backs(x, w.client.value.buf, w.files.meta.value.have)))
  }

  lemma AnnouncedOnSubject(x: Subject)
    requires Carriable(x)
    ensures OnSubject(x, Announced(x)) && Announced(x).have == {}
    ensures Announced(x).buf == Pull.Zeros(|x.payload|)
  {
    assert x.pid in map[x.pid := x.payload];
  }

  /** A frame of the payload leaves every backed claim backed. */
  lemma HearKeepsBacking(x: Subject, c: Pull.Client, frame: Option<Codec.Frame>, at: int, claims: set<nat>)
    requires Carriable(x) && OnSubject(x, c) && Careful(x, START, Hear(frame, at)) && Backs(x, c.buf, claims)
    ensures Backs(x, Pull.OnFrame(c, frame, at).buf, claims)
  {
    if frame.Some? && frame.value.Chunk? {
      var f := frame.value;
      if f.pid == c.pid && f.count == c.count && f.index < c.count {
        Safety.OverlaySlot(c.buf, x.payload, f.index, f.index);
        forall i: u16 | i in claims && i < Safety.Count(x.payload)
          ensures Safety.SlotHolds(Pull.OnFrame(c, frame, at).buf, x.payload, i)
        {
          Safety.OverlaySlot(c.buf, x.payload, f.index, i);
        }
      }
    }
  }

  lemma HearSafe(x: Subject, w: World, frame: Option<Codec.Frame>, at: int)
    requires Carriable(x) && Inv(x, w) && Careful(x, w, Hear(frame, at)) && w.client.Some?
    ensures Inv(x, Step(x, w, Hear(frame, at)))
  {
    Safety.FrameSafe(map[x.pid := x.payload], x.crc32, w.client.value, frame, at);
    if w.files.meta.Some? && (w.looping || w.files.buf.None?) {
      HearKeepsBacking(x, w.client.value, frame, at, w.files.meta.value.have);
    }
  }

  lemma BeginSafe(x: Subject, w: World)
    requires Carriable(x) && Inv(x, w) && Careful(x, w, Begin) && w.client.Some? && !w.looping
    ensures Inv(x, Step(x, w, Begin)) && Step(x, w, Begin).files == w.files
  {
    if Load(w.files).Some? {
      BeginIsSafeIff(x, w);
    }
  }

  /** What a client writes down is backed by its own buffer. */
  lemma SaveSafe(x: Subject, w: World)
    requires Carriable(x) && Inv(x, w) && w.client.Some? && w.looping
    ensures Inv(x, Step(x, w, Save))
  {
    var c := w.client.value;
    var claims := MetaOf(c.pid, c.crc, c.count, c.length, c.have).have;
    forall i: u16 | i in claims && i < Safety.Count(x.payload) ensures Safety.SlotHolds(c.buf, x.payload, i) {
      assert i in c.have;
    }
  }

  lemma StepSafe(x: Subject, w: World, e: Event)
    requires Carriable(x) && Inv(x, w) && Careful(x, w, e)
    ensures Inv(x, Step(x, w, e))
  {
    match e
    case Open => AnnouncedOnSubject(x);
    case Hear(frame, at) => if w.client.Some? { HearSafe(x, w, frame, at); }
    case Begin => if w.client.Some? && !w.looping { BeginSafe(x, w); }
    case Save => if w.client.Some? && w.looping { SaveSafe(x, w); }
    case _ =>
  }

  lemma {:induction false} RunSafe(x: Subject, w: World, events: seq<Event>)
    requires Carriable(x) && Inv(x, w) && AllCareful(x, w, events)
    ensures Inv(x, Run(x, w, events))
    decreases |events|
  {
    if events != [] {
      StepSafe(x, w, events[0]);
      RunSafe(x, Step(x, w, events[0]), events[1..]);
    }
  }

  // ---- resuming ------------------------------------------------------------------------

  /** loadPartial yields nothing, or a partial whose every claim has the payload's bytes. */
  predicate LoadsBacked(x: Subject, f: Files) {
    Load(f).Some? ==> Backs(x, Load(f).value.buf, Load(f).value.meta.have)
  }

  /** The client holds everything the sidecar claims. */
  predicate Claimed(claims: set<nat>, c: Pull.Client) {
    forall i: u16 :: i in claims && i < c.count ==> i in c.have
  }

  /** Resume survives crashes: after any careful history of fetches, saves, clears and
      crashes - also between the two writes of a save - loadPartial yields nothing, or a
      partial whose every claimed chunk has the payload's bytes; and the next fetch starts
      from it, with every claim, and with the reassembly invariant intact. */
  lemma ResumeSurvivesCrashes(x: Subject, events: seq<Event>)
    requires Carriable(x) && AllCareful(x, START, events)
    ensures var w := Run(x, START, events);
            && LoadsBacked(x, w.files)
            && var next := Step(x, Step(x, w, Open), Begin);
               && next.client.Some? && OnSubject(x, next.client.value)
               && (Load(w.files).Some? ==> Claimed(Load(w.files).value.meta.have, next.client.value))
  {
    RunSafe(x, START, events);
    var w := Run(x, START, events);
    AnnouncedOnSubject(x);
    StepSafe(x, w, Open);
    BeginSafe(x, Step(x, w, Open));
  }

  /** A chunk may arrive after the manifest and before the partial is loaded. The seed then
      keeps the reassembly invariant exactly when the partial claims the chunk or happens
      to have its bytes. */
  lemma BeginIsSafeIff(x: Subject, w: World)
    requires Carriable(x) && Inv(x, w) && w.client.Some? && !w.looping && Load(w.files).Some?
    ensures Step(x, w, Begin).client.Some? && Step(x, w, Begin).files == w.files
    ensures OnSubject(x, Step(x, w, Begin).client.value) <==> Safety.Agrees(w.client.value, Load(w.files).value.buf, Load(w.files).value.meta.have)
    ensures Step(x, w, Begin).client.value.buf == Load(w.files).value.buf
  {
    var c, p := w.client.value, Load(w.files).value;
    Safety.SeedKeepsInvIff(map[x.pid := x.payload], x.crc32, c, p.buf, p.meta.have);
  }

  // ---- a clear cut in half ------------------------------------------------------------

  /** The shortest history that shows the harm: a fetch opens and dies in its first save. */
  const PROBE: seq<Event> := [Open, Begin, DieInSave]

  lemma ProbeLoads(x: Subject, w: World)
    requires Carriable(x) && w.client.None? && w.files.buf.None?
    ensures AllCareful(x, w, PROBE)
    ensures Run(x, w, PROBE).files == w.files.(buf := Some(Pull.Zeros(|x.payload|)))
  {
    AnnouncedOnSubject(x);
    var w1 := Step(x, w, Open);
    var w2 := Step(x, w1, Begin);
    assert w2 == World(w.files, Some(Announced(x)), true);
    assert PROBE[1..] == [Begin, DieInSave] && PROBE[1..][1..] == [DieInSave] && PROBE[1..][1..][1..] == [];
    assert AllCareful(x, w2, [DieInSave]) && AllCareful(x, w1, PROBE[1..]);
    assert Run(x, w, PROBE) == Run(x, w1, PROBE[1..]) == Run(x, w2, [DieInSave]);
  }

  /** clearPartial deletes the buffer before the sidecar. If the process dies between the
      two, then every further careful history still loads nothing or a backed partial if and
      only if there was no sidecar, or zeros back all its claims. */
  lemma DyingInClearIsSafeIff(x: Subject, w: World)
    requires Carriable(x) && Inv(x, w) && w.client.Some? && w.looping
    ensures var dead := Step(x, w, DieInClear);
            (forall later :: AllCareful(x, dead, later) ==> LoadsBacked(x, Run(x, dead, later).files))
            <==> w.files.meta.None? || Backs(x, Pull.Zeros(|x.payload|), w.files.meta.value.have)
  {
    var dead := Step(x, w, DieInClear);
    if Spared(x, w.files) {
      StepSafe(x, w, DieInClear);
      forall later | AllCareful(x, dead, later) ensures LoadsBacked(x, Run(x, dead, later).files) {
        RunSafe(x, dead, later);
      }
    } else {
      ProbeLoads(x, dead);
      assert Load(Run(x, dead, PROBE).files).Some?;
      assert !LoadsBacked(x, Run(x, dead, PROBE).files);
    }
  }

  function Ones(n: nat): bytes {
    seq(n, _ => 1)
  }

  /** The history that does the harm: a two-chunk transfer is saved complete and dies
      while clearing; the next fetch finds no buffer, hears one chunk, and dies in
      its first save. */
  function HalfCleared(x: Subject): seq<Event>
    requires x.payload == Ones(225)
  {
    var first, second := Hear(Some(Codec.Chunk(x.pid, 0, 2, Ones(224))), 0),
                         Hear(Some(Codec.Chunk(x.pid, 1, 2, Ones(1))), 0);
    [Open, Begin, first, second, Save, DieInClear, Open, Begin, second, DieInSave]
  }

  function SecondFetch(x: Subject): seq<Event>
    requires x.payload == Ones(225)
  {
    HalfCleared(x)[6..]
  }

  lemma Steps(x: Subject, w: World, events: seq<Event>, k: nat)
    requires Carriable(x) && k < |events|
    ensures Run(x, w, events[k..]) == Run(x, Step(x, w, events[k]), events[k + 1..])
  {
    assert events[k..][1..] == events[k + 1..];
  }

  lemma FirstFetchLeavesSidecar(x: Subject)
    requires Carriable(x) && x.payload == Ones(225)
    ensures Run(x, START, HalfCleared(x)) ==
            Run(x, World(Files(None, Some(Meta(x.pid, x.crc32(x.payload), 2, 225, {0, 1}))), None, false), SecondFetch(x))
  {
    var e := HalfCleared(x);
    var w1 := Step(x, Step(x, START, e[0]), e[1]);
    var w3 := Step(x, Step(x, w1, e[2]), e[3]);
    var w4 := Step(x, w3, e[4]);
    assert e[0..] == e;
    Steps(x, START, e, 0);
    Steps(x, Step(x, START, e[0]), e, 1);
    Steps(x, w1, e, 2);
    Steps(x, Step(x, w1, e[2]), e, 3);
    Steps(x, w3, e, 4);
    Steps(x, w4, e, 5);
    var c := w3.client.value;
    assert c.have == {0, 1};
    assert MetaOf(c.pid, c.crc, c.count, c.length, c.have).have == {0, 1};
  }

  /** After it, every further fetch starts complete and wrong: it resumes from claims
      nothing backs, fails its checksum, and - failing does not clear - leaves the
      disk as it found it for the next one. */
  lemma HalfClearedPoisonsResume(x: Subject)
    requires Carriable(x) && x.payload == Ones(225)
    ensures var w := Run(x, START, HalfCleared(x));
            var next := Step(x, Step(x, w, Open), Begin);
            && next.client.Some? && Pull.Complete(next.client.value)
            && next.client.value.buf != x.payload
            && Step(x, Step(x, Step(x, next, End), Open), Begin) == next
  {
    FirstFetchLeavesSidecar(x);
    var claims := Meta(x.pid, x.crc32(x.payload), 2, 225, {0, 1});
    var w0 := World(Files(None, Some(claims)), None, false);
    var e := SecondFetch(x);
    assert e == [Open, Begin, Hear(Some(Codec.Chunk(x.pid, 1, 2, Ones(1))), 0), DieInSave];
    var w1 := Step(x, w0, e[0]);
    var w2 := Step(x, w1, e[1]);
    var w3 := Step(x, w2, e[2]);
    var w4 := Step(x, w3, e[3]);
    assert e[0..] == e && e[4..] == [];
    Steps(x, w0, e, 0);
    Steps(x, w1, e, 1);
    Steps(x, w2, e, 2);
    Steps(x, w3, e, 3);
    var buf := w4.files.buf.value;
    assert w4.files == Files(Some(buf), Some(claims)) && |buf| == 225 && buf[0] == 0;
    assert x.payload[0] == 1;
    assert Pull.Seed(Announced(x), buf, claims.have).have == {0, 1};
  }
}
