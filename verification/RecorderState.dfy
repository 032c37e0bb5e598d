/** What each operation of the change recorder does to the queue, its counters and the files
    on disk (akonadi/changerecorder.cpp, akonadi/changerecorder_p.cpp), and what whole runs of
    these operations keep: the file always loads to the queue in memory. Saving is a relation,
    because the parts of a message are written in no particular order. */
module RecorderState {
  import opened Collections
  import opened DataStream
  import opened ChangeFile

  /** `stale` remembers that recording was switched on after changes nobody saved. */
  datatype Recorder = Recorder(
    pending: seq<Message>,
    settings: Option<string>,
    enabled: bool,
    lastKnown: int,
    startOffset: int,
    needFullSave: bool,
    files: map<string, seq<Byte>>,
    stale: bool)

  function Fresh(files: map<string, seq<Byte>>): Recorder {
    Recorder([], None, true, 0, 0, true, files, false)
  }

  function FileOf(s: Recorder): seq<Byte> {
    if s.settings.Some? && s.settings.value in s.files then s.files[s.settings.value] else []
  }

  // ------------------------------------------------------------------ the operations

  /** Rewrites the file; without settings nothing happens. */
  ghost predicate FullSave(s: Recorder, s': Recorder) {
    if s.settings.None? then s' == s
    else exists b :: Saved(b, s.pending) && s' == WithFile(s, b)
  }

  function WithFile(s: Recorder, b: seq<Byte>): Recorder
    requires s.settings.Some?
  {
    s.(files := s.files[s.settings.value := b], needFullSave := false, startOffset := 0, stale := false)
  }

  /** Patches the start offset in place. */
  function WriteStartOffset(s: Recorder): Recorder {
    if s.settings.None? then s
    else s.(files := s.files[s.settings.value := WriteAt(FileOf(s), 8, U64(s.startOffset % TWO64))])
  }

  /** The queue became q with count messages added. */
  ghost predicate Enqueued(s: Recorder, s': Recorder, q: seq<Message>, count: int) {
    var s1 := s.(pending := q);
    if s.enabled then FullSave(s1.(lastKnown := s1.lastKnown + count), s') else s' == s1
  }

  /** The queue became q in some other way. */
  ghost predicate Erased(s: Recorder, s': Recorder, q: seq<Message>) {
    var s1 := s.(pending := q);
    if s.enabled then FullSave(s1.(lastKnown := |q|, needFullSave := true), s') else s' == s1
  }

  ghost predicate Dequeued(s: Recorder, s': Recorder)
    requires s.pending != []
  {
    var s1 := s.(pending := s.pending[1..]);
    if !s.enabled then s' == s1
    else
      var s2 := s1.(lastKnown := s1.lastKnown - 1);
      if s2.needFullSave || s2.pending == [] then FullSave(s2, s')
      else s' == WriteStartOffset(s2.(startOffset := s2.startOffset + 1))
  }

  /** Loads the queue from the file; a missing file is first written from the legacy list. */
  ghost predicate LoadedFrom(s: Recorder, s': Recorder, legacy: seq<Message>)
    requires s.settings.Some?
  {
    exists s1 :: (if s.settings.value in s.files then s1 == s.(pending := []) else FullSave(s.(pending := legacy), s1))
      && s' == AfterLoad(s1)
  }

  function AfterLoad(s: Recorder): Recorder {
    var l := Load(FileOf(s));
    s.(pending := l.list, needFullSave := l.needFullSave, lastKnown := |l.list|, startOffset := 0, stale := false)
  }

  ghost predicate Configured(s: Recorder, s': Recorder, settings: Option<string>, legacy: seq<Message>) {
    if settings.Some? then LoadedFrom(s.(settings := settings), s', legacy)
    else if s.settings.None? then s' == s
    else if s.enabled then exists s1 :: FullSave(s, s1) && s' == s1.(settings := None)
    else s' == s.(settings := None)
  }

  function Toggled(s: Recorder, enable: bool): Recorder {
    if s.enabled == enable then s
    else if enable then s.(enabled := true, needFullSave := true, lastKnown := |s.pending|, startOffset := 0,
        stale := true)
    else s.(enabled := false)
  }

  // ------------------------------------------------------------------ the invariant

  /** The patched offset counts what was taken off the front since the last full save. */
  predicate OffsetOk(b: seq<Byte>, q: seq<Message>, offset: int) {
    && Version(b) >= 1 && StartOffset(b) == offset && offset + |q| == |Records(b)|
    && (q != [] ==> |b| >= 16)
  }

  predicate Recording(s: Recorder) {
    s.enabled && s.settings.Some?
  }

  ghost predicate Ok(s: Recorder) {
    && QueueFits(s.pending)
    && (s.enabled ==> s.lastKnown == |s.pending|)
    && (s.stale ==> s.needFullSave)
    && (s.settings.Some? ==> s.settings.value in s.files)
    && (Recording(s) && !s.stale ==> Load(FileOf(s)).list == s.pending)
    && (Recording(s) && !s.needFullSave ==> OffsetOk(FileOf(s), s.pending, s.startOffset))
  }

  lemma FreshOk(files: map<string, seq<Byte>>)
    ensures Ok(Fresh(files))
  {
  }

  lemma SavedFile(s: Recorder, s': Recorder)
    requires FullSave(s, s') && s.settings.Some?
    ensures s' == WithFile(s, FileOf(s')) && Saved(FileOf(s'), s.pending)
    ensures Load(FileOf(s')) == Loaded(s.pending, false) && OffsetOk(FileOf(s'), s.pending, 0)
  {
    var b :| Saved(b, s.pending) && s' == WithFile(s, b);
    SavedIs(b, s.pending);
    RoundTrip(b, s.pending);
  }

  /** After a full save nothing remains of whatever state the file was in. */
  lemma FullSaveOk(s: Recorder, s': Recorder)
    requires FullSave(s, s') && QueueFits(s.pending) && (s.enabled ==> s.lastKnown == |s.pending|)
    requires s.stale ==> s.needFullSave
    ensures Ok(s') && s'.pending == s.pending && s'.settings == s.settings && s'.enabled == s.enabled
    ensures s.settings.Some? ==> !s'.stale
  {
    if s.settings.Some? {
      SavedFile(s, s');
    }
  }

  lemma EnqueuedOk(s: Recorder, s': Recorder, q: seq<Message>, count: int)
    requires Ok(s) && QueueFits(q) && |q| == |s.pending| + count && Enqueued(s, s', q, count)
    ensures Ok(s') && s'.pending == q && s'.settings == s.settings && s'.enabled == s.enabled
    ensures Recording(s) ==> !s'.stale
  {
    if s.enabled {
      FullSaveOk(s.(pending := q, lastKnown := s.lastKnown + count), s');
    }
  }

  lemma ErasedOk(s: Recorder, s': Recorder, q: seq<Message>)
    requires Ok(s) && QueueFits(q) && Erased(s, s', q)
    ensures Ok(s') && s'.pending == q && s'.settings == s.settings && s'.enabled == s.enabled
    ensures Recording(s) ==> !s'.stale
  {
    if s.enabled {
      FullSaveOk(s.(pending := q, lastKnown := |q|, needFullSave := true), s');
    }
  }

  /** One more entry off the front: the patched file stays in step with the queue. */
  lemma PatchStep(b: seq<Byte>, q: seq<Message>, offset: nat)
    requires OffsetOk(b, q, offset) && Load(b).list == q && |q| > 1
    ensures offset + 1 < TWO32
    ensures var b' := WriteAt(b, 8, U64(offset + 1)); OffsetOk(b', q[1..], offset + 1) && Load(b').list == q[1..]
  {
    PatchIs(b, offset + 1);
    DropNext(Records(b), offset);
  }

  lemma DropNext<T>(s: seq<T>, n: nat)
    requires n < |s|
    ensures Drop(s, n + 1) == Drop(s, n)[1..]
  {
  }

  lemma SmallMod(n: nat)
    requires n < TWO32
    ensures n % TWO64 == n
  {
  }

  /** The file is current and long enough for an offset. */
  predicate CanPatch(s: Recorder) {
    s.enabled && s.settings.Some? && !s.needFullSave && |FileOf(s)| >= 16
  }

  lemma SaveAllowsPatches(s: Recorder, s': Recorder)
    requires s.enabled && s.settings.Some? && FullSave(s, s')
    ensures CanPatch(s')
  {
  }

  /** From a full save on, each dequeue that leaves something changes the eight bytes of the offset
      only, and allows the next one to do the same. */
  lemma DequeuesInPlace(s: Recorder, s': Recorder)
    requires CanPatch(s) && |s.pending| > 1 && Dequeued(s, s')
    ensures CanPatch(s') && s'.files.Keys == s.files.Keys + {s.settings.value}
    ensures forall name :: name in s.files && name != s.settings.value ==> s'.files[name] == s.files[name]
    ensures |FileOf(s')| == |FileOf(s)|
    ensures forall i :: 0 <= i < |FileOf(s)| && !(8 <= i < 16) ==> FileOf(s')[i] == FileOf(s)[i]
  {
  }

  /** An in-place patch only ever meets a current file whose offset it continues. */
  lemma PatchedOk(s: Recorder)
    requires Ok(s) && Recording(s) && !s.needFullSave && |s.pending| > 1
    ensures Version(FileOf(s)) >= 1
    ensures Ok(WriteStartOffset(s.(pending := s.pending[1..], lastKnown := s.lastKnown - 1,
        startOffset := s.startOffset + 1)))
  {
    PatchStep(FileOf(s), s.pending, s.startOffset);
    SmallMod(s.startOffset + 1);
  }

  lemma DequeuedOk(s: Recorder, s': Recorder)
    requires Ok(s) && s.pending != [] && Dequeued(s, s')
    ensures Ok(s') && s'.pending == s.pending[1..] && s'.settings == s.settings && s'.enabled == s.enabled
    ensures Recording(s) ==> !s'.stale
  {
    if s.enabled {
      var s2 := s.(pending := s.pending[1..], lastKnown := s.lastKnown - 1);
      if s2.needFullSave || s2.pending == [] {
        FullSaveOk(s2, s');
      } else if s.settings.Some? {
        PatchedOk(s);
      }
    }
  }

  /** A file too short for its header holds no records. */
  lemma ShortFile(b: seq<Byte>)
    requires |b| < 16 && Version(b) >= 1
    ensures Records(b) == []
  {
    assert |ReadU64(b).rest| < 8;
    assert Body(b) == [];
  }

  /** Of any file, what loads without need for a rewrite is in step with the queue. */
  lemma LoadedInStep(b: seq<Byte>)
    requires !Load(b).needFullSave
    ensures OffsetOk(b, Load(b).list, 0)
  {
    if |b| < 16 {
      ShortFile(b);
    }
  }

  /** Whatever the file holds, the queue is what it loads to, and the next save is in order. */
  lemma AfterLoadOk(s: Recorder)
    requires s.settings.Some? && s.settings.value in s.files
    ensures Ok(AfterLoad(s)) && !AfterLoad(s).stale && AfterLoad(s).pending == Load(FileOf(s)).list
  {
    if !Load(FileOf(s)).needFullSave {
      LoadedInStep(FileOf(s));
    }
  }

  /** Configuring loads whatever the file holds, or else the legacy list. */
  lemma ConfiguredOk(s: Recorder, s': Recorder, settings: Option<string>, legacy: seq<Message>)
    requires Ok(s) && QueueFits(legacy) && Configured(s, s', settings, legacy)
    ensures Ok(s') && s'.settings == settings && s'.enabled == s.enabled
    ensures settings.Some? ==> !s'.stale
    ensures settings.Some? ==> s'.pending == if settings.value in s.files then Load(s.files[settings.value]).list
        else legacy
    ensures settings.None? ==> s'.pending == s.pending
  {
    if settings.Some? {
      LoadedOk(s.(settings := settings), s', legacy);
    } else if s.settings.Some? && s.enabled {
      var s1 :| FullSave(s, s1) && s' == s1.(settings := None);
      FullSaveOk(s, s1);
    }
  }

  lemma LoadedOk(s: Recorder, s': Recorder, legacy: seq<Message>)
    requires s.settings.Some? && QueueFits(legacy) && LoadedFrom(s, s', legacy)
    ensures Ok(s') && s'.settings == s.settings && s'.enabled == s.enabled && !s'.stale
    ensures s'.pending == if s.settings.value in s.files then Load(s.files[s.settings.value]).list else legacy
  {
    var s1 :| (if s.settings.value in s.files then s1 == s.(pending := []) else FullSave(s.(pending := legacy), s1))
        && s' == AfterLoad(s1);
    if s.settings.value !in s.files {
      SavedFile(s.(pending := legacy), s1);
    }
    AfterLoadOk(s1);
  }

  // ------------------------------------------------------------------ runs

  /** The monitor adds count messages and may merge into others; it compresses or cleans the
      queue; the head has been processed; recording is switched; the recorder gets another
      file, or none; or it is destroyed, and a new one is set up on the same file. */
  datatype Op =
    | Notify(queue: seq<Message>, count: nat)
    | Replace(queue: seq<Message>)
    | Processed
    | SwitchRecording(enable: bool)
    | Configure(settings: Option<string>, legacy: seq<Message>)
    | Restart

  ghost predicate Step(s: Recorder, s': Recorder, op: Op) {
    match op
    case Notify(queue, count) => QueueFits(queue) && |queue| == |s.pending| + count && Enqueued(s, s', queue, count)
    case Replace(queue) => QueueFits(queue) && Erased(s, s', queue)
    case Processed => if s.enabled && s.pending != [] then Dequeued(s, s') else s' == s
    case SwitchRecording(enable) => s' == Toggled(s, enable)
    case Configure(settings, legacy) =>
      QueueFits(legacy) && (settings.Some? ==> s.pending == []) && Configured(s, s', settings, legacy)
    case Restart => Configured(Fresh(s.files), s', s.settings, [])
  }

  ghost predicate Run(run: seq<Recorder>, ops: seq<Op>) {
    && |run| == |ops| + 1
    && forall i {:trigger ops[i]} :: 0 <= i < |ops| ==> Step(run[i], run[i + 1], ops[i])
  }

  // ------------------------------------------------------------------ the plain recorder

  /** A recorder as its user sees it: the queue, and what every file would be loaded to. */
  datatype Plain = Plain(queue: seq<Message>, settings: Option<string>, enabled: bool,
                         stored: map<string, seq<Message>>)

  /** What a file would be loaded to. */
  function Content(b: seq<Byte>): seq<Message> {
    Load(b).list
  }

  function Mapped<V, W>(m: map<string, V>, f: V -> W): map<string, W> {
    map name | name in m :: f(m[name])
  }

  lemma MappedUpdate<V, W>(m: map<string, V>, f: V -> W, name: string, v: V)
    ensures Mapped(m[name := v], f) == Mapped(m, f)[name := f(v)]
  {
  }

  function PlainOf(s: Recorder): Plain {
    Plain(s.pending, s.settings, s.enabled, Mapped(s.files, Content))
  }

  /** With recording on, the file holds the queue. */
  function Kept(p: Plain): Plain {
    if p.enabled && p.settings.Some? then p.(stored := p.stored[p.settings.value := p.queue]) else p
  }

  function Opened(p: Plain, name: string, legacy: seq<Message>): Plain {
    var queue := if name in p.stored then p.stored[name] else legacy;
    p.(settings := Some(name), queue := queue, stored := p.stored[name := queue])
  }

  /** What each operation means, without counters, offsets or bytes. */
  function Next(p: Plain, op: Op): Plain {
    match op
    case Notify(queue, _) => Kept(p.(queue := queue))
    case Replace(queue) => Kept(p.(queue := queue))
    case Processed => if p.enabled && p.queue != [] then Kept(p.(queue := p.queue[1..])) else p
    case SwitchRecording(enable) => p.(enabled := enable)
    case Configure(settings, legacy) =>
      if settings.Some? then Opened(p, settings.value, legacy) else Kept(p).(settings := None)
    case Restart =>
      var blank := Plain([], None, true, p.stored);
      if p.settings.Some? then Opened(blank, p.settings.value, []) else blank
  }

  function After(p: Plain, ops: seq<Op>, n: nat): Plain
    requires n <= |ops|
  {
    if n == 0 then p else Next(After(p, ops, n - 1), ops[n - 1])
  }

  // ------------------------------------------------------------------ refinement

  /** Only the file in use changes, and what it loads to. */
  lemma PlainFile(s: Recorder, s': Recorder, name: string, b: seq<Byte>)
    requires s'.files == s.files[name := b]
    ensures PlainOf(s').stored == PlainOf(s).stored[name := Content(b)]
  {
    MappedUpdate(s.files, Content, name, b);
  }

  lemma FullSavePlain(s: Recorder, s': Recorder)
    requires FullSave(s, s') && s.enabled
    ensures PlainOf(s') == Kept(PlainOf(s))
  {
    if s.settings.Some? {
      SavedFile(s, s');
      PlainFile(s, s', s.settings.value, FileOf(s'));
    }
  }

  lemma DequeuedPlain(s: Recorder, s': Recorder)
    requires Ok(s) && s.enabled && s.pending != [] && Dequeued(s, s')
    ensures PlainOf(s') == Kept(PlainOf(s).(queue := s.pending[1..]))
  {
    var s2 := s.(pending := s.pending[1..], lastKnown := s.lastKnown - 1);
    DequeuedOk(s, s');
    if s2.needFullSave || s2.pending == [] {
      FullSavePlain(s2, s');
    } else if s.settings.Some? {
      PlainFile(s, s', s.settings.value, FileOf(s'));
    }
  }

  lemma ConfiguredPlain(s: Recorder, s': Recorder, settings: Option<string>, legacy: seq<Message>)
    requires Ok(s) && QueueFits(legacy) && Configured(s, s', settings, legacy)
    ensures PlainOf(s') == if settings.Some? then Opened(PlainOf(s), settings.value, legacy)
        else Kept(PlainOf(s)).(settings := None)
  {
    if settings.Some? {
      LoadedPlain(s.(settings := settings), s', legacy);
    } else if s.settings.Some? && s.enabled {
      var s1 :| FullSave(s, s1) && s' == s1.(settings := None);
      FullSavePlain(s, s1);
    }
  }

  lemma AfterLoadPlain(s: Recorder)
    ensures PlainOf(AfterLoad(s)) == PlainOf(s).(queue := Content(FileOf(s)))
  {
  }

  lemma OpenedKnown(p: Plain, name: string, legacy: seq<Message>)
    requires name in p.stored
    ensures Opened(p, name, legacy) == p.(settings := Some(name), queue := p.stored[name])
  {
    assert p.stored[name := p.stored[name]] == p.stored;
  }

  lemma LoadedPlain(s: Recorder, s': Recorder, legacy: seq<Message>)
    requires s.settings.Some? && QueueFits(legacy) && LoadedFrom(s, s', legacy)
    ensures PlainOf(s') == Opened(PlainOf(s), s.settings.value, legacy)
  {
    var name := s.settings.value;
    var s0 := s.(pending := legacy);
    var s1 :| (if name in s.files then s1 == s.(pending := []) else FullSave(s0, s1)) && s' == AfterLoad(s1);
    AfterLoadPlain(s1);
    if name in s.files {
      OpenedKnown(PlainOf(s), name, legacy);
    } else {
      SavedFile(s0, s1);
      PlainFile(s0, s1, name, FileOf(s1));
    }
  }

  /** Every operation keeps the recorder in order and does what its plain meaning says. */
  lemma StepOk(s: Recorder, s': Recorder, op: Op)
    requires Ok(s) && Step(s, s', op)
    ensures Ok(s') && PlainOf(s') == Next(PlainOf(s), op)
  {
    match op
    case Notify(queue, count) =>
      EnqueuedOk(s, s', queue, count);
      if s.enabled { FullSavePlain(s.(pending := queue, lastKnown := s.lastKnown + count), s'); }
    case Replace(queue) =>
      ErasedOk(s, s', queue);
      if s.enabled { FullSavePlain(s.(pending := queue, lastKnown := |queue|, needFullSave := true), s'); }
    case Processed =>
      if s.enabled && s.pending != [] {
        DequeuedOk(s, s');
        DequeuedPlain(s, s');
      }
    case SwitchRecording(enable) =>
    case Configure(settings, legacy) =>
      ConfiguredOk(s, s', settings, legacy);
      ConfiguredPlain(s, s', settings, legacy);
    case Restart =>
      FreshOk(s.files);
      ConfiguredOk(Fresh(s.files), s', s.settings, []);
      ConfiguredPlain(Fresh(s.files), s', s.settings, []);
  }

  /** What the first state has and every step keeps, every state has. */
  lemma {:induction false} Invariant<S, O>(run: seq<S>, ops: seq<O>, step: (S, S, O) -> bool, inv: (nat, S) -> bool,
          i: nat)
    requires |run| == |ops| + 1 && i < |run|
    requires forall k {:trigger ops[k]} :: 0 <= k < |ops| ==> step(run[k], run[k + 1], ops[k])
    requires inv(0, run[0])
    requires forall k: nat, s, s' {:trigger inv(k, s), step(s, s', ops[k])} ::
      k < |ops| && inv(k, s) && step(s, s', ops[k]) ==> inv(k + 1, s')
    ensures inv(i, run[i])
  {
    if i > 0 {
      Invariant(run, ops, step, inv, i - 1);
      assert step(run[i - 1], run[i - 1 + 1], ops[i - 1]);
    }
  }

  ghost predicate Mirrors(p: Plain, ops: seq<Op>, n: nat, s: Recorder) {
    n <= |ops| && Ok(s) && PlainOf(s) == After(p, ops, n)
  }

  lemma MirrorsStep(p: Plain, ops: seq<Op>, n: nat, s: Recorder, s': Recorder)
    requires n < |ops| && Mirrors(p, ops, n, s) && Step(s, s', ops[n])
    ensures Mirrors(p, ops, n + 1, s')
  {
    StepOk(s, s', ops[n]);
  }

  /** Crash recovery: at every point of every run, with the recorder destroyed, reconfigured or
      switched off and on at will, the queue in memory is the plain queue, and every file loads
      to what the plain recorder has stored under its name. */
  lemma CrashRecovery(run: seq<Recorder>, ops: seq<Op>, i: nat)
    requires Run(run, ops) && Ok(run[0]) && i < |run|
    ensures Ok(run[i]) && PlainOf(run[i]) == After(PlainOf(run[0]), ops, i)
  {
    var p := PlainOf(run[0]);
    forall k: nat, s, s' | k < |ops| && Mirrors(p, ops, k, s) && Step(s, s', ops[k])
      ensures Mirrors(p, ops, k + 1, s')
    {
      MirrorsStep(p, ops, k, s, s');
    }
    Invariant(run, ops, (s, s', op) => Step(s, s', op), (k, s) => Mirrors(p, ops, k, s), i);
  }

  /** Recording to a file that is up to date. */
  ghost predicate Live(s: Recorder) {
    Ok(s) && Recording(s) && !s.stale
  }

  /** A new recorder set up on any file at all, old, current or damaged, starts such a run
      with what the file loads to, and on no file with the legacy list. */
  lemma SetUpIsLive(files: map<string, seq<Byte>>, s: Recorder, name: string, legacy: seq<Message>)
    requires QueueFits(legacy) && Configured(Fresh(files), s, Some(name), legacy)
    ensures Live(s) && s.pending == if name in files then Load(files[name]).list else legacy
  {
    FreshOk(files);
    ConfiguredOk(Fresh(files), s, Some(name), legacy);
  }

  ghost predicate UpToDate(s: Recorder) {
    Ok(s) && s.enabled && !s.stale
  }

  lemma StepUpToDate(s: Recorder, s': Recorder, op: Op)
    requires UpToDate(s) && Step(s, s', op) && !op.SwitchRecording?
    ensures UpToDate(s')
  {
    StepOk(s, s', op);
    match op
    case Notify(queue, count) => FullSaveStale(s.(pending := queue, lastKnown := s.lastKnown + count), s');
    case Replace(queue) => FullSaveStale(s.(pending := queue, lastKnown := |queue|, needFullSave := true), s');
    case Processed =>
      if s.pending != [] {
        var s2 := s.(pending := s.pending[1..], lastKnown := s.lastKnown - 1);
        if s2.needFullSave || s2.pending == [] { FullSaveStale(s2, s'); }
      }
    case Configure(settings, legacy) =>
      if settings.None? && s.settings.Some? {
        var s1 :| FullSave(s, s1) && s' == s1.(settings := None);
        FullSaveStale(s, s1);
      }
    case Restart =>
  }

  lemma FullSaveStale(s: Recorder, s': Recorder)
    requires FullSave(s, s') && !s.stale
    ensures !s'.stale
  {
  }

  /** As long as recording is never switched, the file in use loads to the queue in memory at
      every point: nothing is lost or repeated by a crash. */
  lemma {:induction false} NothingLost(run: seq<Recorder>, ops: seq<Op>, i: nat)
    requires Run(run, ops) && UpToDate(run[0]) && i < |run|
    requires forall k :: 0 <= k < |ops| ==> !ops[k].SwitchRecording?
    ensures UpToDate(run[i])
    ensures run[i].settings.Some? ==> Load(FileOf(run[i])).list == run[i].pending
  {
    if i > 0 {
      NothingLost(run, ops, i - 1);
      assert Step(run[i - 1], run[i - 1 + 1], ops[i - 1]);
      StepUpToDate(run[i - 1], run[i], ops[i - 1]);
    }
  }

  /** Offset discipline: while recording and unless a rewrite is due, the file is of the current
      version, its stored offset is the one in memory, and offset and queue together are what it
      stores; so a file of the old version is never patched. */
  lemma OffsetDiscipline(run: seq<Recorder>, ops: seq<Op>, i: nat)
    requires Run(run, ops) && Ok(run[0]) && i < |run|
    ensures var s := run[i]; var b := FileOf(s);
      Recording(s) ==>
        && (!s.needFullSave ==>
              Version(b) >= 1 && StartOffset(b) == s.startOffset && s.startOffset + |s.pending| == |Records(b)|)
        && (Version(b) == 0 ==> s.needFullSave)
  {
    CrashRecovery(run, ops, i);
  }
}
