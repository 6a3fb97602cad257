/**
 * Copying the files of a common import into a private destination: resumable, and never overwriting a byte.
 *
 * Reads and writes are short as `io` says: each transfer moves at most the next number of bytes in it, and the
 * process dies when it is used up. Read-only checks answer as `answers` says. A digest is modelled by the bytes it
 * stands for.
 */
module ImportCopy {
  import opened Basics

  datatype State = Intent | Verified | Moved
  datatype File = File(
    id: nat, copy: bool, source: string, identity: nat, slot: string, sha256: Bytes, bytes: nat)
  datatype Source = Source(content: Bytes, identity: nat)

  const BUFFER: nat := 1024 * 1024

  /** A file after `data` was written at `at`, inside it or at its end. */
  function WriteAt(file: Bytes, at: nat, data: Bytes): Bytes
    requires at <= |file|
  {
    file[..at] + data + if at + |data| <= |file| then file[at + |data|..] else ""
  }

  /** Every file that was there still is, and starts with all its former bytes. */
  ghost predicate Extends(was: map<nat, Bytes>, now: map<nat, Bytes>) {
    was.Keys <= now.Keys && forall i | i in was :: was[i] <= now[i]
  }

  /** Every transfer moves all it is asked to. */
  ghost predicate FullTransfers(io: seq<nat>) {
    forall i | 0 <= i < |io| :: io[i] >= BUFFER
  }

  ghost predicate Changes(was: map<nat, Bytes>, now: map<nat, Bytes>, inode: nat) {
    inode in was && now.Keys == was.Keys && forall i | i in was && i != inode :: now[i] == was[i]
  }

  lemma ExtendsTransitive(a: map<nat, Bytes>, b: map<nat, Bytes>, c: map<nat, Bytes>)
    requires Extends(a, b) && Extends(b, c)
    ensures Extends(a, c)
  {
    forall i | i in a
      ensures a[i] <= c[i]
    {
      assert a[i] <= b[i] && b[i] <= c[i];
    }
  }

  /** Position and prefix of one copy: what the destination holds once `position` source bytes are handled. */
  ghost predicate Copied(file: Bytes, was: Bytes, source: Bytes, position: nat) {
    position <= |source| &&
    if position <= |was| then file == was && source[..position] <= was
    else file == source[..position] && was <= source
  }

  /** The file only grew: a prefix of the source to a longer one, and anything else and a whole file not at all. */
  ghost predicate Grown(file: Bytes, was: Bytes, source: Bytes) {
    && was <= file && (was <= source ==> file <= source)
    && (!(was <= source) || |was| == |source| ==> file == was)
  }

  lemma CopiedOutcome(file: Bytes, was: Bytes, source: Bytes, position: nat)
    requires Copied(file, was, source, position) && |was| <= |source|
    ensures Grown(file, was, source)
    ensures position == |source| ==> file == source
  {
    if position > |was| {
      assert was == source[..position][..|was|];
    }
  }

  lemma AppendChunk(file: Bytes, was: Bytes, source: Bytes, at: nat, n: nat)
    requires Copied(file, was, source, at) && |was| <= at && at + n <= |source|
    ensures at <= |file|
    ensures Copied(WriteAt(file, at, source[at..at + n]), was, source, at + n)
  {
    assert |file| == at;
    assert file == source[..at];
    assert source[..at + n] == source[..at] + source[at..at + n];
    if at == |was| {
      assert was == source[..at];
    }
  }

  lemma Compared(file: Bytes, was: Bytes, source: Bytes, position: nat, n: nat)
    requires Copied(file, was, source, position)
    requires position + n <= |was| && position + n <= |source|
    requires file[position..position + n] == source[position..position + n]
    ensures Copied(file, was, source, position + n)
  {
    assert was[..position + n] == was[..position] + was[position..position + n];
    assert source[..position + n] == source[..position] + source[position..position + n];
  }

  // What a completed copy amounts to

  function CopyCount(files: seq<File>): nat {
    if files == [] then 0 else CopyCount(files[..|files| - 1]) + if files[|files| - 1].copy then 1 else 0
  }

  function CopyBytes(files: seq<File>): nat {
    if files == [] then 0
    else CopyBytes(files[..|files| - 1]) + if files[|files| - 1].copy then files[|files| - 1].bytes else 0
  }

  lemma CountNext(files: seq<File>, k: nat)
    requires k < |files|
    ensures CopyCount(files[..k + 1]) == CopyCount(files[..k]) + if files[k].copy then 1 else 0
    ensures CopyBytes(files[..k + 1]) == CopyBytes(files[..k]) + if files[k].copy then files[k].bytes else 0
  {
    assert files[..k + 1][..k] == files[..k];
  }

  /** No two files share a directory entry, and no two existing destinations are one file. */
  ghost predicate Apart(files: seq<File>, entries: map<string, nat>) {
    forall i, j | 0 <= i < j < |files| :: files[i].slot != files[j].slot &&
      (files[i].slot in entries && files[j].slot in entries ==> entries[files[i].slot] != entries[files[j].slot])
  }

  /** The file's destination, where it exists, is a prefix of its source. */
  ghost predicate PrefixOf(file: File, sources: map<string, Source>, entries: map<string, nat>, disk: map<nat, Bytes>) {
    file.slot in entries && entries[file.slot] in disk && file.source in sources ==>
      disk[entries[file.slot]] <= sources[file.source].content
  }

  /** The file's destination holds its whole source, with the reviewed digest and size. */
  ghost predicate Complete(file: File, sources: map<string, Source>, entries: map<string, nat>, disk: map<nat, Bytes>) {
    file.slot in entries && entries[file.slot] in disk && file.source in sources &&
    disk[entries[file.slot]] == sources[file.source].content == file.sha256 && |file.sha256| == file.bytes
  }

  /** One file's copy touches its own directory entry and its own destination, and only extends that. */
  ghost predicate Step(
    slot: string, entries: map<string, nat>, disk: map<nat, Bytes>, entries': map<string, nat>, disk': map<nat, Bytes>)
  {
    && Extends(disk, disk')
    && if slot !in entries' then entries' == entries && disk' == disk
       else
         && entries' == entries[slot := entries'[slot]]
         && (if slot in entries then entries'[slot] == entries[slot] else entries'[slot] !in disk)
         && forall i | i in disk && i != entries'[slot] :: disk'[i] == disk[i]
  }

  /** Where destinations are apart, copying one file leaves them apart and every other file as it was. */
  lemma StepLeavesOthers(
    files: seq<File>, sources: map<string, Source>, k: nat,
    entries: map<string, nat>, disk: map<nat, Bytes>, entries': map<string, nat>, disk': map<nat, Bytes>)
    requires k < |files| && Apart(files, entries) && Step(files[k].slot, entries, disk, entries', disk')
    requires forall slot | slot in entries :: entries[slot] in disk
    ensures Apart(files, entries')
    ensures forall i | 0 <= i < |files| && i != k :: files[i].slot in entries' <==> files[i].slot in entries
    ensures forall i | 0 <= i < |files| && i != k && files[i].slot in entries ::
              entries'[files[i].slot] == entries[files[i].slot] &&
              disk'[entries[files[i].slot]] == disk[entries[files[i].slot]]
  {
    forall i | 0 <= i < |files| && i != k
      ensures files[i].slot != files[k].slot
      ensures files[i].slot in entries && files[k].slot in entries ==> entries[files[i].slot] != entries[files[k].slot]
    {
    }
  }

  /** Nothing stands in the way of copying the file: what its destination holds, if it exists, is a prefix. */
  ghost predicate Copyable(
    file: File, state: State, resume: bool, sources: map<string, Source>,
    entries: map<string, nat>, disk: map<nat, Bytes>)
  {
    && state != Moved
    && file.source in sources && sources[file.source] == Source(file.sha256, file.identity)
    && |file.sha256| == file.bytes
    && PrefixOf(file, sources, entries, disk)
    && (if file.slot in entries then resume || state == Verified else state != Verified)
    && (state == Verified && entries[file.slot] in disk ==> |disk[entries[file.slot]]| == file.bytes)
  }

  /** The file's destination exists and is as it was. */
  ghost predicate Unwritten(
    file: File, entries: map<string, nat>, disk: map<nat, Bytes>, entries': map<string, nat>, disk': map<nat, Bytes>)
  {
    && file.slot in entries && entries[file.slot] in disk
    && file.slot in entries' && entries'[file.slot] == entries[file.slot]
    && entries'[file.slot] in disk' && disk'[entries'[file.slot]] == disk[entries[file.slot]]
  }

  /**
   * What every run keeps: no byte is replaced, a destination that was a prefix of its source stays one, and any other
   * is not written.
   */
  ghost predicate Preserved(
    files: seq<File>, sources: map<string, Source>,
    entries: map<string, nat>, disk: map<nat, Bytes>, entries': map<string, nat>, disk': map<nat, Bytes>)
  {
    Extends(disk, disk') && forall f | f in files ::
      if PrefixOf(f, sources, entries, disk) then PrefixOf(f, sources, entries', disk')
      else Unwritten(f, entries, disk, entries', disk')
  }

  lemma PreservedTransitive(
    files: seq<File>, sources: map<string, Source>,
    entries: map<string, nat>, disk: map<nat, Bytes>, entries': map<string, nat>, disk': map<nat, Bytes>,
    entries'': map<string, nat>, disk'': map<nat, Bytes>)
    requires Preserved(files, sources, entries, disk, entries', disk')
    requires Preserved(files, sources, entries', disk', entries'', disk'')
    ensures Preserved(files, sources, entries, disk, entries'', disk'')
  {
    ExtendsTransitive(disk, disk', disk'');
    forall f | f in files && !PrefixOf(f, sources, entries, disk)
      ensures Unwritten(f, entries, disk, entries'', disk'')
    {
      assert Unwritten(f, entries, disk, entries', disk') && !PrefixOf(f, sources, entries', disk');
    }
  }

  lemma StepPreserves(
    files: seq<File>, sources: map<string, Source>, k: nat,
    entries: map<string, nat>, disk: map<nat, Bytes>, entries': map<string, nat>, disk': map<nat, Bytes>)
    requires k < |files| && Apart(files, entries) && Step(files[k].slot, entries, disk, entries', disk')
    requires forall slot | slot in entries :: entries[slot] in disk
    requires PrefixOf(files[k], sources, entries, disk) ==> PrefixOf(files[k], sources, entries', disk')
    requires !PrefixOf(files[k], sources, entries, disk) ==> disk' == disk
    ensures Preserved(files, sources, entries, disk, entries', disk')
  {
    StepLeavesOthers(files, sources, k, entries, disk, entries', disk');
    forall f | f in files
      ensures if PrefixOf(f, sources, entries, disk) then PrefixOf(f, sources, entries', disk')
              else Unwritten(f, entries, disk, entries', disk')
    {
      var i :| 0 <= i < |files| && files[i] == f;
    }
  }

  /** What is journalled as verified stays so, and its destination is not written. */
  ghost predicate VerifiedKept(
    files: seq<File>, journal: seq<State>, entries: map<string, nat>, disk: map<nat, Bytes>,
    journal': seq<State>, entries': map<string, nat>, disk': map<nat, Bytes>)
    requires |journal| == |journal'| == |files|
  {
    forall i | 0 <= i < |files| && journal[i] == Verified ::
      journal'[i] == Verified &&
      (files[i].slot in entries && entries[files[i].slot] in disk ==>
         Unwritten(files[i], entries, disk, entries', disk'))
  }

  /** Copying one file leaves the others as copyable, and as complete, as they were. */
  lemma StepLeavesCopyable(
    files: seq<File>, sources: map<string, Source>, k: nat, i: nat, state: State, resume: bool,
    entries: map<string, nat>, disk: map<nat, Bytes>, entries': map<string, nat>, disk': map<nat, Bytes>)
    requires k < |files| && i < |files| && i != k
    requires Apart(files, entries) && Step(files[k].slot, entries, disk, entries', disk')
    requires forall slot | slot in entries :: entries[slot] in disk
    ensures Copyable(files[i], state, resume, sources, entries, disk) ==>
              Copyable(files[i], state, resume, sources, entries', disk')
    ensures Complete(files[i], sources, entries, disk) ==> Complete(files[i], sources, entries', disk')
  {
    StepLeavesOthers(files, sources, k, entries, disk, entries', disk');
  }

  class Copier {
    const sources: map<string, Source>
    const files: seq<File>
    var journal: seq<State>
    var entries: map<string, nat>
    var disk: map<nat, Bytes>
    var io: seq<nat>
    var answers: seq<bool>
    var unused: nat

    ghost predicate Valid()
      reads this
    {
      && |journal| == |files|
      && (forall slot | slot in entries :: entries[slot] in disk)
      && (forall inode | inode in disk :: inode < unused)
    }

    constructor (sources: map<string, Source>, files: seq<File>, entries: map<string, nat>,
                 disk: map<nat, Bytes>, unused: nat)
      requires forall slot | slot in entries :: entries[slot] in disk
      requires forall inode | inode in disk :: inode < unused
      ensures Valid() && this.sources == sources && this.files == files && this.entries == entries && this.disk == disk
      ensures |journal| == |files| && forall s | s in journal :: s == Intent
    {
      this.sources := sources;
      this.files := files;
      this.entries := entries;
      this.disk := disk;
      journal := seq(|files|, _ => Intent);
      io := [];
      answers := [];
      this.unused := unused;
    }

    /** How many of `want` bytes the next transfer moves; no answer is a crash. */
    method Transfer(want: nat) returns (moved: Option<nat>)
      modifies `io
      ensures FullTransfers(old(io)) ==> FullTransfers(io) && (want <= BUFFER && moved.Some? ==> moved.value == want)
      ensures if old(io) == [] then moved == None && io == []
              else moved == Some(Min(old(io)[0], want)) && io == old(io)[1..]
    {
      if io == [] {
        return None;
      }
      moved := Some(Min(io[0], want));
      io := io[1..];
    }

    /** Nothing stands in the way of copying any of the files from `k` on. */
    ghost predicate CopyableFrom(k: nat, resume: bool)
      requires |journal| == |files|
      reads this
    {
      && Apart(files, entries)
      && forall i | k <= i < |files| && files[i].copy :: Copyable(files[i], journal[i], resume, sources, entries, disk)
    }

    /** The files before `k` that are to be copied are complete and journalled as verified. */
    ghost predicate CopiedBefore(k: nat)
      requires |journal| == |files| && k <= |files|
      reads this
    {
      forall i | 0 <= i < k && files[i].copy :: journal[i] == Verified && Complete(files[i], sources, entries, disk)
    }

    /** Every transfer moves what it is asked to, and every read-only check passes. */
    ghost predicate Smooth()
      reads `io, `answers
    {
      FullTransfers(io) && forall i | 0 <= i < |answers| :: answers[i]
    }

    /** The answer of the next read-only check: of mounts, parents, modes, links and identities. */
    method Check() returns (passed: bool)
      modifies `answers
      ensures old(Smooth()) ==> passed && Smooth()
    {
      if answers == [] {
        return true;
      }
      passed := answers[0];
      answers := answers[1..];
    }

    /** Writes the source's bytes from `at` to `end` in however many short writes it takes. */
    method WriteChunk(inode: nat, source: Bytes, at: nat, end: nat, ghost was: Bytes) returns (o: Outcome)
      requires inode in disk && at <= end <= |source| && |was| <= |source|
      requires (at < end ==> |was| <= at) && Copied(disk[inode], was, source, at)
      modifies `disk, `io
      ensures Changes(old(disk), disk, inode) && Grown(disk[inode], was, source)
      ensures o == Done ==> Copied(disk[inode], was, source, end)
      ensures FullTransfers(old(io)) ==> FullTransfers(io) && (end - at <= BUFFER ==> !o.Refused?)
      ensures o == Crashed ==> io == []
    {
      var offset := at;
      while offset < end
        invariant FullTransfers(old(io)) ==> FullTransfers(io)
        invariant at <= offset <= end
        invariant Changes(old(disk), disk, inode)
        invariant Copied(disk[inode], was, source, offset)
      {
        CopiedOutcome(disk[inode], was, source, offset);
        var moved := Transfer(end - offset);
        if moved.None? {
          return Crashed;
        }
        if moved.value == 0 {
          return Refused("import_copy_write_failed");
        }
        AppendChunk(disk[inode], was, source, offset, moved.value);
        disk := disk[inode := WriteAt(disk[inode], offset, source[offset..offset + moved.value])];
        offset := offset + moved.value;
      }
      CopiedOutcome(disk[inode], was, source, offset);
      return Done;
    }

    /** Reads `compare` bytes of the destination back and compares them with those just read from the source. */
    method Compare(inode: nat, source: Bytes, position: nat, compare: nat, ghost was: Bytes) returns (o: Outcome)
      requires inode in disk && position + compare <= |was| && position + compare <= |source|
      requires Copied(disk[inode], was, source, position)
      modifies `io
      ensures o == Done ==> Copied(disk[inode], was, source, position + compare)
      ensures o.Refused? && was <= source ==> !FullTransfers(old(io)) || compare > BUFFER
      ensures FullTransfers(old(io)) ==> FullTransfers(io)
      ensures o == Crashed ==> io == []
    {
      var moved := Transfer(compare);
      if moved.None? {
        return Crashed;
      }
      var there, read := disk[inode][position..position + compare], source[position..position + compare];
      if moved.value != compare || there != read {
        return Refused("import_copy_prefix_changed");
      }
      Compared(disk[inode], was, source, position, compare);
      return Done;
    }

    /** Reads the next bytes of the source, compares them with what is already there, and writes the rest of them. */
    method CopyChunk(inode: nat, source: Bytes, position: nat, ghost was: Bytes, prefix: nat)
      returns (o: Outcome, read: nat)
      requires inode in disk && position < |source| && prefix == |was| <= |source|
      requires Copied(disk[inode], was, source, position)
      modifies `disk, `io
      ensures Changes(old(disk), disk, inode) && Grown(disk[inode], was, source)
      ensures o == Done ==> 0 < read <= |source| - position && Copied(disk[inode], was, source, position + read)
      ensures FullTransfers(old(io)) ==> FullTransfers(io) && (was <= source ==> !o.Refused?)
      ensures o == Crashed ==> io == []
    {
      read := 0;
      CopiedOutcome(disk[inode], was, source, position);
      var moved := Transfer(Min(BUFFER, |source| - position));
      if moved.None? {
        return Crashed, read;
      }
      read := moved.value;
      if read == 0 {
        return Refused("import_copy_source_changed"), read;
      }
      var compare := Min(read, if prefix > position then prefix - position else 0);
      if compare > 0 {
        o := Compare(inode, source, position, compare, was);
        if o != Done {
          return;
        }
      }
      o := WriteChunk(inode, source, position + compare, position + read, was);
    }

    /** Compares what the destination already holds with the source and appends the rest. */
    method Append(inode: nat, source: Bytes) returns (o: Outcome)
      requires inode in disk && |disk[inode]| <= |source|
      modifies `disk, `io
      ensures Changes(old(disk), disk, inode) && Grown(disk[inode], old(disk)[inode], source)
      ensures |old(disk)[inode]| == |source| || !(old(disk)[inode] <= source) ==> disk == old(disk)
      ensures o == Done ==> disk[inode] == source && old(disk)[inode] <= source
      ensures FullTransfers(old(io)) ==> FullTransfers(io) && (old(disk)[inode] <= source ==> !o.Refused?)
      ensures o == Crashed ==> io == []
    {
      ghost var was := disk[inode];
      var prefix := |disk[inode]|;
      var position := 0;
      while position < |source|
        invariant position <= |source|
        invariant FullTransfers(old(io)) ==> FullTransfers(io)
        invariant Changes(old(disk), disk, inode)
        invariant Copied(disk[inode], was, source, position)
      {
        var read;
        o, read := CopyChunk(inode, source, position, was, prefix);
        if o != Done {
          return;
        }
        position := position + read;
      }
      CopiedOutcome(disk[inode], was, source, position);
      return Done;
    }

    /** Refuses a plan in which two destinations are one directory entry or one existing file. */
    method AssertImportDestinations() returns (o: Outcome)
      modifies `answers
      ensures o == Done ==> Apart(files, entries)
      ensures o != Done && o != Refused("import_destination_alias") ==> o == Refused("import_destination_invalid")
      ensures o == Refused("import_destination_alias") ==> !Apart(files, entries)
      ensures old(Smooth()) ==> Smooth() && (o == Done <==> Apart(files, entries))
    {
      var parents, identities := {}, {};
      for i := 0 to |files|
        invariant Apart(files[..i], entries)
        invariant forall slot :: slot in parents <==> exists j | 0 <= j < i :: files[j].slot == slot
        invariant forall inode :: inode in identities <==>
                    exists j | 0 <= j < i :: files[j].slot in entries && entries[files[j].slot] == inode
        invariant old(Smooth()) ==> Smooth()
      {
        var inspected := Check();
        if !inspected {
          return Refused("import_destination_invalid");
        }
        var slot := files[i].slot;
        if slot in parents {
          return Refused("import_destination_alias");
        }
        parents := parents + {slot};
        if slot in entries {
          if entries[slot] in identities {
            return Refused("import_destination_alias");
          }
          identities := identities + {entries[slot]};
        }
      }
      assert files[..|files|] == files;
      return Done;
    }

    /** Opens the destination of file `k`, or creates it where that may be done. */
    method Open(k: nat, resume: bool) returns (o: Outcome, inode: nat)
      requires Valid() && k < |files|
      modifies `entries, `disk, `unused
      ensures Valid()
      ensures o != Done ==> entries == old(entries) && disk == old(disk)
      ensures o == Done ==> files[k].slot in entries && inode == entries[files[k].slot]
      ensures o == Done && files[k].slot in old(entries) ==>
                entries == old(entries) && disk == old(disk) && (resume || journal[k] == Verified)
      ensures o == Done && files[k].slot !in old(entries) ==>
                inode !in old(disk) && entries == old(entries)[files[k].slot := inode] &&
                disk == old(disk)[inode := ""] && journal[k] != Verified
      ensures o.Refused? <==>
                if files[k].slot in old(entries) then !resume && journal[k] != Verified else journal[k] == Verified
      ensures o.Refused? && files[k].slot in old(entries) ==> o.code == "import_copy_collision"
      ensures o != Crashed
    {
      var slot := files[k].slot;
      inode := 0;
      if slot in entries {
        if journal[k] == Verified || resume {
          return Done, entries[slot];
        }
        return Refused("import_copy_collision"), 0;
      }
      if journal[k] == Verified {
        return Refused("import_copy_unavailable"), 0;
      }
      inode := unused;
      unused := unused + 1;
      entries := entries[slot := inode];
      disk := disk[inode := ""];
      return Done, inode;
    }

    /** Copies one file and journals it as verified. */
    method CopyFile(k: nat, resume: bool, destinations: set<nat>) returns (o: Outcome, inode: nat)
      requires Valid() && k < |files| && files[k].copy && journal[k] != Moved
      modifies `journal, `entries, `disk, `io, `answers, `unused
      ensures Valid() && Step(files[k].slot, old(entries), old(disk), entries, disk)
      ensures PrefixOf(files[k], sources, old(entries), old(disk)) ==> PrefixOf(files[k], sources, entries, disk)
      ensures !PrefixOf(files[k], sources, old(entries), old(disk)) ==> disk == old(disk) && o != Done
      ensures old(journal)[k] == Verified ==> disk == old(disk)
      ensures journal == if o == Done then old(journal)[k := Verified] else old(journal)
      ensures o == Done ==>
                Complete(files[k], sources, entries, disk) && inode == entries[files[k].slot] && inode !in destinations
      ensures Copyable(files[k], old(journal)[k], true, sources, old(entries), old(disk)) ==>
                Copyable(files[k], journal[k], true, sources, entries, disk)
      ensures (Copyable(files[k], old(journal)[k], resume, sources, old(entries), old(disk)) && old(Smooth()) &&
               (forall d | d in destinations :: d in old(disk)) &&
               (files[k].slot in old(entries) ==> old(entries)[files[k].slot] !in destinations)) ==> !o.Refused?
      ensures (old(Smooth()) ==> Smooth()) && (o == Crashed ==> io == [])
    {
      var file := files[k];
      inode := 0;
      var mounted := Check();
      if !mounted {
        return Refused("import_copy_mount_changed"), 0;
      }
      if file.source !in sources || sources[file.source].identity != file.identity {
        return Refused("import_copy_source_changed"), 0;
      }
      o, inode := Open(k, resume);
      if o != Done {
        return;
      }
      o := Fill(k, inode, destinations);
    }

    /** Appends what is missing of file `k` to its opened destination, and verifies and journals the result. */
    method Fill(k: nat, inode: nat, destinations: set<nat>) returns (o: Outcome)
      requires Valid() && k < |files| && files[k].slot in entries && inode == entries[files[k].slot]
      requires files[k].source in sources
      modifies `journal, `disk, `io, `answers
      ensures Valid() && Changes(old(disk), disk, inode) && old(disk)[inode] <= disk[inode]
      ensures old(disk)[inode] <= sources[files[k].source].content ==> disk[inode] <= sources[files[k].source].content
      ensures !(old(disk)[inode] <= sources[files[k].source].content) ==> disk == old(disk) && o != Done
      ensures old(journal)[k] == Verified ==> disk == old(disk)
      ensures journal == if o == Done then old(journal)[k := Verified] else old(journal)
      ensures o == Done ==> Complete(files[k], sources, entries, disk) && inode !in destinations
      ensures (Copyable(files[k], old(journal)[k], true, sources, entries, old(disk)) && inode !in destinations &&
               old(Smooth())) ==> !o.Refused?
      ensures (old(Smooth()) ==> Smooth()) && (o == Crashed ==> io == [])
    {
      var source := sources[files[k].source].content;
      var size := |disk[inode]|;
      var private := Check();
      if !private || size > |source| || (journal[k] == Verified && size != |source|) {
        return Refused("import_copy_destination_changed");
      }
      if inode in destinations {
        return Refused("import_destination_alias");
      }
      o := Append(inode, source);
      if o != Done {
        return;
      }
      o := Verify(k, inode);
    }

    /** Compares the copy with the reviewed digest and size, checks both paths again, and journals the file. */
    method Verify(k: nat, inode: nat) returns (o: Outcome)
      requires Valid() && k < |files| && files[k].source in sources && inode in disk
      requires disk[inode] == sources[files[k].source].content
      modifies `journal, `io, `answers
      ensures journal == if o == Done then old(journal)[k := Verified] else old(journal)
      ensures o == Done ==> disk[inode] == files[k].sha256 && |disk[inode]| == files[k].bytes
      ensures disk[inode] == files[k].sha256 && |disk[inode]| == files[k].bytes && old(Smooth()) ==> !o.Refused?
      ensures (old(Smooth()) ==> Smooth()) && (o == Crashed ==> io == [])
    {
      if sources[files[k].source].content != files[k].sha256 {
        return Refused("import_copy_source_changed");
      }
      if disk[inode] != files[k].sha256 || |disk[inode]| != files[k].bytes {
        return Refused("import_copy_verification_failed");
      }
      var same := Check();
      if !same {
        return Refused("import_copy_path_changed");
      }
      var alive := Transfer(0);
      if alive.None? {
        return Crashed;
      }
      journal := journal[k := Verified];
      return Done;
    }

    /** The destinations written so far are those of the files before `k`. */
    ghost predicate Before(destinations: set<nat>, k: nat)
      reads this
    {
      forall d | d in destinations ::
        exists j | 0 <= j < k && j < |files| :: files[j].slot in entries && entries[files[j].slot] == d
    }

    /** The next file of a run, whose first file has all destinations checked before anything is written. */
    method CopyNext(k: nat, resume: bool, reviewed: bool, destinations: set<nat>) returns (o: Outcome, inode: nat)
      requires Valid() && k < |files| && files[k].copy && (reviewed ==> Apart(files, entries))
      requires Before(destinations, k)
      modifies `journal, `entries, `disk, `io, `answers, `unused
      ensures Valid() && Preserved(files, sources, old(entries), old(disk), entries, disk)
      ensures if Apart(files, old(entries)) then Apart(files, entries)
              else o != Done && disk == old(disk) && entries == old(entries)
      ensures o == Done ==>
                Before(destinations + {inode}, k + 1) && PrefixOf(files[k], sources, old(entries), old(disk))
      ensures VerifiedKept(files, old(journal), old(entries), old(disk), journal, entries, disk)
      ensures o == Done && old(CopiedBefore(k)) ==> CopiedBefore(k + 1)
      ensures old(CopyableFrom(0, true)) ==> CopyableFrom(0, true)
      ensures old(CopyableFrom(k, resume)) ==> CopyableFrom(k + 1, resume) && (old(Smooth()) ==> !o.Refused?)
      ensures (old(Smooth()) ==> Smooth()) && (o == Crashed ==> io == [])
    {
      inode := 0;
      if journal[k] == Moved {
        return Refused("import_copy_state_invalid"), 0;
      }
      if !reviewed {
        o := AssertImportDestinations();
        if o != Done {
          return;
        }
      }
      o, inode := CopyApart(k, resume, destinations);
    }

    method CopyApart(k: nat, resume: bool, destinations: set<nat>) returns (o: Outcome, inode: nat)
      requires Valid() && k < |files| && files[k].copy && journal[k] != Moved && Apart(files, entries)
      requires Before(destinations, k)
      modifies `journal, `entries, `disk, `io, `answers, `unused
      ensures Valid() && Apart(files, entries) && Preserved(files, sources, old(entries), old(disk), entries, disk)
      ensures o == Done ==>
                Before(destinations + {inode}, k + 1) && PrefixOf(files[k], sources, old(entries), old(disk))
      ensures VerifiedKept(files, old(journal), old(entries), old(disk), journal, entries, disk)
      ensures o == Done && old(CopiedBefore(k)) ==> CopiedBefore(k + 1)
      ensures old(CopyableFrom(0, true)) ==> CopyableFrom(0, true)
      ensures old(CopyableFrom(k, resume)) ==> CopyableFrom(k + 1, resume) && (old(Smooth()) ==> !o.Refused?)
      ensures (old(Smooth()) ==> Smooth()) && (o == Crashed ==> io == [])
    {
      o, inode := CopyFile(k, resume, destinations);
      StepLeavesOthers(files, sources, k, old(entries), old(disk), entries, disk);
      StepPreserves(files, sources, k, old(entries), old(disk), entries, disk);
      forall i: nat, r: bool | i < |files| && i != k
        ensures Copyable(files[i], journal[i], r, sources, old(entries), old(disk)) ==>
                  Copyable(files[i], journal[i], r, sources, entries, disk)
        ensures Complete(files[i], sources, old(entries), old(disk)) ==> Complete(files[i], sources, entries, disk)
      {
        StepLeavesCopyable(files, sources, k, i, journal[i], r, old(entries), old(disk), entries, disk);
      }
    }

    /** The copy run: every file in turn, after one check of all destinations. */
    method CopyImportFiles(resume: bool) returns (o: Outcome, count: nat, total: nat)
      requires Valid()
      modifies `journal, `entries, `disk, `io, `answers, `unused
      ensures Valid() && Preserved(files, sources, old(entries), old(disk), entries, disk)
      ensures !Apart(files, old(entries)) ==> disk == old(disk) && entries == old(entries)
      ensures o == Done ==> count == CopyCount(files) && total == CopyBytes(files)
      ensures VerifiedKept(files, old(journal), old(entries), old(disk), journal, entries, disk)
      ensures o == Done ==> CopiedBefore(|files|)
      ensures old(CopyableFrom(0, true)) ==> CopyableFrom(0, true)
      ensures old(CopyableFrom(0, resume)) && old(Smooth()) ==> !o.Refused?
      ensures o == Crashed ==> io == []
    {
      count, total := 0, 0;
      var reviewed := false;
      var destinations := {};
      for k := 0 to |files|
        invariant Valid() && Preserved(files, sources, old(entries), old(disk), entries, disk)
        invariant if reviewed then Apart(files, entries) && Apart(files, old(entries))
                  else disk == old(disk) && entries == old(entries)
        invariant count == CopyCount(files[..k]) && total == CopyBytes(files[..k])
        invariant Before(destinations, k)
        invariant VerifiedKept(files, old(journal), old(entries), old(disk), journal, entries, disk)
        invariant CopiedBefore(k)
        invariant old(CopyableFrom(0, true)) ==> CopyableFrom(0, true)
        invariant old(Smooth()) ==> Smooth()
        invariant old(CopyableFrom(0, resume)) ==> CopyableFrom(k, resume)
      {
        CountNext(files, k);
        if files[k].copy {
          ghost var entries0, disk0 := entries, disk;
          var inode;
          o, inode := CopyNext(k, resume, reviewed, destinations);
          PreservedTransitive(files, sources, old(entries), old(disk), entries0, disk0, entries, disk);
          if o != Done {
            return;
          }
          reviewed := true;
          destinations := destinations + {inode};
          count := count + 1;
          total := total + files[k].bytes;
        }
      }
      assert files[..|files|] == files;
      return Done, count, total;
    }

    /**
     * However many copy runs are interrupted, at whatever byte, every destination that was a prefix of its source
     * stays one, no other is written, no byte is ever replaced, and a run that completes leaves every destination
     * equal to its source. Where nothing stood in the way of the first run, nothing does in the way of the last: it
     * completes unless it is interrupted too.
     */
    method CopyThroughCrashes(
      attempts: seq<(bool, seq<nat>, seq<bool>)>, last: (bool, seq<nat>, seq<bool>))
      returns (o: Outcome, count: nat, total: nat)
      requires Valid()
      modifies `journal, `entries, `disk, `io, `answers, `unused
      ensures Preserved(files, sources, old(entries), old(disk), entries, disk)
      ensures o == Done ==> count == CopyCount(files) && total == CopyBytes(files)
      ensures Valid() && (o == Done ==> CopiedBefore(|files|))
      ensures VerifiedKept(files, old(journal), old(entries), old(disk), journal, entries, disk)
      ensures (old(CopyableFrom(0, true)) && last.0 && FullTransfers(last.1) &&
               (forall i | 0 <= i < |last.2| :: last.2[i])) ==> o == Done || (o == Crashed && io == [])
    {
      for i := 0 to |attempts|
        invariant Valid() && Preserved(files, sources, old(entries), old(disk), entries, disk)
        invariant VerifiedKept(files, old(journal), old(entries), old(disk), journal, entries, disk)
        invariant old(CopyableFrom(0, true)) ==> CopyableFrom(0, true)
      {
        io, answers := attempts[i].1, attempts[i].2;
        ghost var entries0, disk0 := entries, disk;
        var interrupted, _, _ := CopyImportFiles(attempts[i].0);
        PreservedTransitive(files, sources, old(entries), old(disk), entries0, disk0, entries, disk);
      }
      io, answers := last.1, last.2;
      ghost var entries0, disk0 := entries, disk;
      o, count, total := CopyImportFiles(last.0);
      PreservedTransitive(files, sources, old(entries), old(disk), entries0, disk0, entries, disk);
    }
  }
}
