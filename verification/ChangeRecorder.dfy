/** The change recorder (akonadi/changerecorder.cpp, akonadi/changerecorder_p.cpp): a queue of
    notifications that outlives the process in a file. Every method is proved against the
    operation of RecorderState it carries out. */
module ChangeRecorder {
  import opened Collections
  import opened DataStream
  import opened ChangeFile
  import opened RecorderState

  /** The files by name. */
  class Disk {
    var files: map<string, seq<Byte>>

    constructor ()
      ensures files == map[]
    {
      files := map[];
    }

    /** Overwrites part of a file, creating it if necessary. */
    method Overwrite(name: string, pos: nat, data: seq<Byte>)
      modifies this
      ensures files == old(files)[name := WriteAt(if name in old(files) then old(files)[name] else [], pos, data)]
    {
      var b := if name in files then files[name] else [];
      files := files[name := WriteAt(b, pos, data)];
    }
  }

  /** What the monitor says about a notification: its data is there, it was put into the
      pipeline, or nobody wants it. */
  datatype Verdict = Available | Pipelined | Rejected

  datatype Reply = NotRecording | Emitted(message: Message) | Waiting(message: Message) | NothingToReplay

  datatype Replayed = Replayed(reply: Reply, queue: seq<Message>)

  /** The outcome of a replay whose first verdict is the k-th, and the queue it leaves. */
  function Replay(q: seq<Message>, verdicts: nat -> Verdict, k: nat): (r: Replayed)
    ensures |r.queue| <= |q|
    decreases |q|
  {
    if q == [] then Replayed(NothingToReplay, q)
    else match verdicts(k)
      case Available => Replayed(Emitted(q[0]), q)
      case Pipelined => Replayed(Waiting(q[0]), q)
      case Rejected => Replay(q[1..], verdicts, k + 1)
  }

  /** The longest prefix of messages nobody wants: n messages, the verdict on each of which is
      Rejected, and none or another verdict on the next. */
  ghost predicate MaximalRejected(count: nat, verdicts: nat -> Verdict, k: nat, n: nat) {
    && n <= count && (forall i :: k <= i < k + n ==> verdicts(i) == Rejected)
    && (n < count ==> verdicts(k + n) != Rejected)
  }

  /** Ordered replay: exactly the maximal rejected prefix is gone, and the outcome is about the
      message after it. */
  lemma {:induction false} ReplayInOrder(q: seq<Message>, verdicts: nat -> Verdict, k: nat, n: nat)
    requires MaximalRejected(|q|, verdicts, k, n)
    ensures Replay(q, verdicts, k)
         == Replayed(if n == |q| then NothingToReplay else if verdicts(k + n) == Available then Emitted(q[n])
             else Waiting(q[n]), q[n..])
    decreases |q|
  {
    if n > 0 {
      assert verdicts(k) == Rejected;
      ReplayInOrder(q[1..], verdicts, k + 1, n - 1);
    }
  }

  ghost predicate Written(parts: set<ByteArray>, left: set<ByteArray>, order: seq<ByteArray>) {
    left <= parts && |order| + |left| == |parts| && ArraysFit(order) && Elements(order) == parts - left
  }

  /** An order in which a set may be written. */
  predicate SetOrder(parts: set<ByteArray>, order: seq<ByteArray>) {
    ArraysFit(order) && |order| < TWO32 && Elements(order) == parts
  }

  /** The count and the elements written so far. */
  ghost function SetSoFar(count: int, order: seq<ByteArray>): seq<Byte>
    requires 0 <= count < TWO32 && ArraysFit(order)
  {
    U32(count) + ArraysBytes(order)
  }

  lemma WrittenNext(parts: set<ByteArray>, left: set<ByteArray>, order: seq<ByteArray>, part: ByteArray)
    requires Written(parts, left, order) && part in left && ArrayFits(part)
    ensures Written(parts, left - {part}, order + [part])
  {
    ArraysAppend(order, part);
    ElementsLast(order + [part]);
    assert (order + [part])[..|order|] == order;
  }

  lemma SetNext(count: int, order: seq<ByteArray>, part: ByteArray)
    requires 0 <= count < TWO32 && ArraysFit(order) && ArrayFits(part)
    ensures ArraysFit(order + [part]) && SetSoFar(count, order + [part]) == SetSoFar(count, order) + ArrayBytes(part)
  {
    ArraysAppend(order, part);
  }

  lemma SetDone(parts: set<ByteArray>, order: seq<ByteArray>)
    requires Written(parts, {}, order) && |parts| < TWO32
    ensures SetOrder(parts, order) && SetSoFar(|parts|, order) == SetBytes(order)
  {
  }

  lemma NothingWritten(parts: set<ByteArray>)
    requires |parts| < TWO32
    ensures Written(parts, parts, []) && SetSoFar(|parts|, []) == U32(|parts|)
  {
    assert Elements<ByteArray>([]) == {};
  }

  lemma StreamAppend(stream: seq<Byte>, records: seq<seq<Byte>>, record: seq<Byte>)
    ensures Extended(stream, records + [record]) == Extended(stream, records) + record
  {
    ConcatAppend(records, record);
  }

  ghost function Extended(stream: seq<Byte>, records: seq<seq<Byte>>): seq<Byte> {
    stream + Concat(records)
  }

  lemma NothingExtended(stream: seq<Byte>)
    ensures Extended(stream, []) == stream
  {
  }

  lemma DropAppend<T>(s: seq<T>, x: T, n: nat)
    ensures Drop(s + [x], n) == if |s| >= n then Drop(s, n) + [x] else Drop(s, n)
  {
  }

  /** Reading with what was read so far in hand. */
  function ReadInto<T>(read: seq<Byte> -> Read<T>, done: seq<T>, s: seq<Byte>, n: nat): seq<T>
    decreases n
  {
    if n == 0 || s == [] then done else ReadInto(read, done + [read(s).value], read(s).rest, n - 1)
  }

  lemma {:induction false} ReadIntoIs<T>(read: seq<Byte> -> Read<T>, done: seq<T>, s: seq<Byte>, n: nat)
    ensures ReadInto(read, done, s, n) == done + ReadMany(read, s, n)
    decreases n
  {
    if n != 0 && s != [] {
      ReadIntoIs(read, done + [read(s).value], read(s).rest, n - 1);
    }
  }

  /** Records of the first n messages. */
  ghost predicate ListedTo(q: seq<Message>, n: int, records: seq<seq<Byte>>) {
    0 <= n <= |q| && EncodesAll(records, q[..n])
  }

  lemma ListedNext(q: seq<Message>, n: int, records: seq<seq<Byte>>, record: seq<Byte>)
    requires ListedTo(q, n, records) && n < |q| && Encodes(record, q[n])
    ensures ListedTo(q, n + 1, records + [record])
  {
    assert q[..n + 1] == q[..n] + [q[n]];
  }

  lemma ListedAll(q: seq<Message>, records: seq<seq<Byte>>)
    requires ListedTo(q, |q|, records)
    ensures EncodesAll(records, q)
  {
    assert q[..|q|] == q;
  }

  class ChangeRecorder {
    const disk: Disk
    var pendingNotifications: seq<Message>
    var settings: Option<string>
    var enableChangeRecording: bool
    var m_lastKnownNotificationsCount: int
    var m_startOffset: int
    var m_needFullSave: bool
    ghost var stale: bool

    ghost function View(): Recorder
      reads this, disk
    {
      Recorder(pendingNotifications, settings, enableChangeRecording, m_lastKnownNotificationsCount,
               m_startOffset, m_needFullSave, disk.files, stale)
    }

    constructor (disk: Disk)
      ensures this.disk == disk && View() == Fresh(disk.files) && Ok(View())
    {
      this.disk := disk;
      pendingNotifications, settings, enableChangeRecording := [], None, true;
      m_lastKnownNotificationsCount, m_startOffset, m_needFullSave := 0, 0, true;
      stale := false;
    }

    // ---------------------------------------------------------------- writing

    /** Appends a record of the message. */
    method addToStream(stream: seq<Byte>, msg: Message) returns (out: seq<Byte>)
      requires Storable(msg)
      ensures stream <= out && Encodes(out[|stream|..], msg)
    {
      var parts := setToStream(msg.itemParts);
      ghost var order :| SetOrder(msg.itemParts, order) && parts == SetBytes(order);
      assert PartsOrder(msg, order);
      var record := WhatBytes(msg) + WhereBytes(msg) + parts;
      assert record == RecordBytes(msg, order);
      out := stream + record;
      assert out[|stream|..] == record;
    }

    /** The elements are written in whatever order the set yields them. */
    method setToStream(itemParts: set<ByteArray>) returns (out: seq<Byte>)
      requires |itemParts| < TWO32 && forall a :: a in itemParts ==> ArrayFits(a)
      ensures exists order :: SetOrder(itemParts, order) && out == SetBytes(order)
    {
      out := U32(|itemParts|);
      var left := itemParts;
      ghost var order: seq<ByteArray> := [];
      NothingWritten(itemParts);
      while left != {}
        invariant left <= itemParts
        invariant Written(itemParts, left, order) && out == SetSoFar(|itemParts|, order)
        decreases left
      {
        var part :| part in left;
        WrittenNext(itemParts, left, order, part);
        SetNext(|itemParts|, order, part);
        left := left - {part};
        out := out + ArrayBytes(part);
        order := order + [part];
      }
      SetDone(itemParts, order);
    }

    method saveTo() returns (device: seq<Byte>)
      requires QueueFits(pendingNotifications)
      ensures Saved(device, pendingNotifications)
    {
      device := U64(CountAndVersion(|pendingNotifications|)) + U64(0);
      device := listToStream(device);
    }

    method listToStream(stream: seq<Byte>) returns (out: seq<Byte>)
      requires QueueFits(pendingNotifications)
      ensures exists records :: EncodesAll(records, pendingNotifications) && out == Extended(stream, records)
    {
      out := stream;
      ghost var records: seq<seq<Byte>> := [];
      NothingExtended(stream);
      for i := 0 to |pendingNotifications|
        invariant ListedTo(pendingNotifications, i, records) && out == Extended(stream, records)
      {
        ghost var before := out;
        out := addToStream(out, pendingNotifications[i]);
        ghost var record := out[|before|..];
        ListedNext(pendingNotifications, i, records, record);
        StreamAppend(stream, records, record);
        records := records + [record];
      }
      ListedAll(pendingNotifications, records);
    }

    method saveNotifications()
      requires QueueFits(pendingNotifications)
      modifies this`m_needFullSave, this`m_startOffset, this`stale, disk
      ensures FullSave(old(View()), View())
    {
      if settings.None? {
        return;
      }
      var b := saveTo();
      disk.files := disk.files[settings.value := b];
      m_needFullSave := false;
      m_startOffset := 0;
      stale := false;
      assert View() == WithFile(old(View()), b);
    }

    /** Skips count and version, and writes the offset; everything else stays unchanged. */
    method writeStartOffset()
      requires settings.Some? ==> settings.value in disk.files
      modifies disk
      ensures View() == RecorderState.WriteStartOffset(old(View()))
    {
      if settings.None? {
        return;
      }
      disk.Overwrite(settings.value, 8, U64(m_startOffset % TWO64));
    }

    // ---------------------------------------------------------------- reading

    method loadFrom(device: seq<Byte>) returns (list: seq<Message>)
      modifies this`m_needFullSave
      ensures Loaded(list, m_needFullSave) == Load(device)
    {
      var sizeAndVersion := ReadU64(device);
      var stream := sizeAndVersion.rest;
      var size := sizeAndVersion.value % TWO32;
      var version := sizeAndVersion.value / TWO32 % 0x1_0000;
      var startOffset := 0;
      if version >= 1 {
        var offset := ReadU64(stream);
        startOffset, stream := offset.value, offset.rest;
      }
      // neither a file whose front is skipped nor an old one can be patched later
      m_needFullSave := startOffset > 0 || version == 0;
      list := readList(ReadRecord, stream, size, startOffset);
    }

    /** Reads all records but keeps only those from the start offset on. */
    method readList<T>(read: seq<Byte> -> Read<T>, device: seq<Byte>, size: nat, startOffset: nat)
            returns (list: seq<T>)
      ensures list == Drop(ReadMany(read, device, size), startOffset)
    {
      var stream := device;
      list := [];
      ghost var all: seq<T> := [];
      var i := 0;
      while i < size && stream != []
        invariant i <= size && |all| == i && list == Drop(all, startOffset)
        invariant ReadInto(read, all, stream, size - i) == ReadInto(read, [], device, size)
      {
        var msg := read(stream);
        DropAppend(all, msg.value, startOffset);
        all := all + [msg.value];
        if i >= startOffset {
          list := list + [msg.value];
        }
        stream := msg.rest;
        i := i + 1;
      }
      ReadIntoIs(read, [], device, size);
    }

    /** Without a file, the changes an old version kept in the settings are migrated first. */
    method loadNotifications(legacy: seq<Message>)
      requires settings.Some? && QueueFits(legacy)
      modifies this, disk
      ensures LoadedFrom(old(View()), View(), legacy)
    {
      pendingNotifications := [];
      if settings.value !in disk.files {
        pendingNotifications := legacy;
        saveNotifications();
      }
      loadFile();
    }

    method loadFile()
      requires settings.Some? && settings.value in disk.files
      modifies this
      ensures View() == AfterLoad(old(View()))
    {
      m_needFullSave := false;
      pendingNotifications := loadFrom(disk.files[settings.value]);
      notificationsLoaded();
      stale := false;
    }

    method notificationsLoaded()
      modifies this`m_lastKnownNotificationsCount, this`m_startOffset
      ensures m_lastKnownNotificationsCount == |pendingNotifications| && m_startOffset == 0
    {
      m_lastKnownNotificationsCount := |pendingNotifications|;
      m_startOffset := 0;
    }

    // ---------------------------------------------------------------- the queue

    /** The monitor added notifications, possibly changing others. */
    method enqueue(q: seq<Message>, count: nat)
      requires Ok(View()) && QueueFits(q) && |q| == |pendingNotifications| + count
      modifies this, disk
      ensures Enqueued(old(View()), View(), q, count) && Ok(View())
    {
      pendingNotifications := q;
      notificationsEnqueued(count);
      EnqueuedOk(old(View()), View(), q, count);
    }

    method notificationsEnqueued(count: int)
      requires QueueFits(pendingNotifications)
      requires enableChangeRecording ==> m_lastKnownNotificationsCount + count == |pendingNotifications|
      modifies this`m_lastKnownNotificationsCount, this`m_needFullSave, this`m_startOffset, this`stale, disk
      ensures Enqueued(old(View()), View(), old(pendingNotifications), count)
    {
      if enableChangeRecording {
        m_lastKnownNotificationsCount := m_lastKnownNotificationsCount + count;
        saveNotifications();
      }
    }

    /** The monitor dropped notifications, or merged one away. */
    method erase(q: seq<Message>)
      requires Ok(View()) && QueueFits(q)
      modifies this, disk
      ensures Erased(old(View()), View(), q) && Ok(View())
    {
      pendingNotifications := q;
      notificationsErased();
      ErasedOk(old(View()), View(), q);
    }

    method notificationsErased()
      requires QueueFits(pendingNotifications)
      modifies this`m_lastKnownNotificationsCount, this`m_needFullSave, this`m_startOffset, this`stale, disk
      ensures Erased(old(View()), View(), old(pendingNotifications))
    {
      if enableChangeRecording {
        m_lastKnownNotificationsCount := |pendingNotifications|;
        m_needFullSave := true;
        saveNotifications();
      }
    }

    method dequeueNotification()
      requires Ok(View()) && pendingNotifications != []
      modifies this, disk
      ensures Dequeued(old(View()), View()) && Ok(View()) && pendingNotifications == old(pendingNotifications)[1..]
      ensures settings == old(settings) && enableChangeRecording == old(enableChangeRecording)
    {
      pendingNotifications := pendingNotifications[1..];
      if enableChangeRecording {
        m_lastKnownNotificationsCount := m_lastKnownNotificationsCount - 1;
        if m_needFullSave || pendingNotifications == [] {
          saveNotifications();
        } else {
          m_startOffset := m_startOffset + 1;
          writeStartOffset();
        }
      }
      DequeuedOk(old(View()), View());
    }

    // ---------------------------------------------------------------- the public interface

    method setConfig(newSettings: Option<string>, legacy: seq<Message>)
      requires Ok(View()) && QueueFits(legacy) && (newSettings.Some? ==> pendingNotifications == [])
      modifies this, disk
      ensures Configured(old(View()), View(), newSettings, legacy) && Ok(View())
    {
      if newSettings.Some? {
        settings := newSettings;
        loadNotifications(legacy);
      } else if settings.Some? {
        if enableChangeRecording {
          saveNotifications();
        }
        settings := newSettings;
      }
      ConfiguredOk(old(View()), View(), newSettings, legacy);
    }

    /** Replays the first notification anybody wants; the k-th verdict is about the first. */
    method replayNext(verdicts: nat -> Verdict, k: nat) returns (reply: Reply)
      requires Ok(View())
      modifies this, disk
      ensures Ok(View()) && settings == old(settings) && enableChangeRecording == old(enableChangeRecording)
      ensures !enableChangeRecording ==> reply == NotRecording && View() == old(View())
      ensures enableChangeRecording ==>
        Replayed(reply, pendingNotifications) == Replay(old(pendingNotifications), verdicts, k)
      ensures pendingNotifications == old(pendingNotifications) ==> View() == old(View())
      decreases |pendingNotifications|
    {
      if !enableChangeRecording {
        return NotRecording;
      }
      if pendingNotifications == [] {
        return NothingToReplay;
      }
      var msg := pendingNotifications[0];
      match verdicts(k)
      case Available => reply := Emitted(msg);
      case Pipelined => reply := Waiting(msg);
      case Rejected =>
        dequeueNotification();
        reply := replayNext(verdicts, k + 1);
    }

    method changeProcessed()
      requires Ok(View())
      modifies this, disk
      ensures Ok(View())
      ensures if enableChangeRecording && old(pendingNotifications) != [] then Dequeued(old(View()), View())
          else View() == old(View())
      ensures enableChangeRecording == old(enableChangeRecording)
    {
      if enableChangeRecording && pendingNotifications != [] {
        dequeueNotification();
      }
    }

    /** Switching recording on does not save yet, but makes the next change do so. */
    method setChangeRecordingEnabled(enable: bool)
      requires Ok(View())
      modifies this
      ensures View() == Toggled(old(View()), enable) && Ok(View())
    {
      if enableChangeRecording == enable {
        return;
      }
      enableChangeRecording := enable;
      if enable {
        m_needFullSave := true;
        stale := true;
        notificationsLoaded();
      }
    }
  }
}
