/**
 Content-addressed publication by hard link
 (apps/worker/src/private-offer-blob-store.ts, `putIfAbsent`).

 Any number of writers to one content key run concurrently. One event is one
 file-system call of one writer; `n` carries the kernel's free choice (bytes
 moved, temporary name picked). `Fails` is any error or cancellation at that
 point, and a writer that gets no more events has crashed. Time stamps and
 ownership are not modelled: comparing them can only turn a success into an
 error, which `Fails` already allows.
 */
module BlobPublish {
  import opened Wrappers

  type Blob = seq<int>
  type Ino = nat

  /** The content key: the checksum and length every write to it must carry. */
  datatype Key = Key(checksum: int, byteLength: nat)

  datatype Name = Final | Temp(id: nat)

  datatype Inode = Inode(bytes: Blob, sealed: bool, nlink: nat)

  /** Inode numbers are indices: an inode is never reused. */
  datatype Fs = Fs(names: map<Name, Ino>, inodes: seq<Inode>)

  /** Which call of `verifyExisting` is running. */
  datatype Context = First | Own | Competing(attempt: nat)

  datatype Outcome = Stored | AlreadyPresent | Error

  datatype Pc =
    | Start
    | Lstat(ctx: Context)
    | Open(ctx: Context, seen: Ino)
    | Fstat(ctx: Context, seen: Ino, handle: Ino)
    | Read(ctx: Context, seen: Ino, handle: Ino, got: Blob)
    | FstatAgain(ctx: Context, seen: Ino, handle: Ino, got: Blob)
    | LstatAgain(ctx: Context, seen: Ino)
    | Recheck(attempt: nat)
    | OpenTemp
    | Fill(offset: nat)
    | Seal
    | CheckSealed
    | Link
    | UnlinkTemp
    | Cleanup(result: Outcome)
    | Finished(result: Outcome)

  /** `tmp` is the temporary name while it exists; `linked` says this writer created the final name. */
  datatype Writer = Writer(payload: Blob, pc: Pc, tmp: Option<nat>, ino: Ino, linked: bool)

  datatype State = State(fs: Fs, writers: seq<Writer>)

  datatype Event = Moves(writer: nat, n: nat) | Fails(writer: nat)

  const MAX_ATTEMPTS := 16

  function Min(a: nat, b: nat): nat { if a <= b then a else b }

  /** A byte count the kernel may return: at least 1, at most `limit`. */
  function Moved(n: nat, limit: nat): nat { if n == 0 then Min(1, limit) else Min(n, limit) }

  // ----- One file-system call

  /** Leaving through an error: remove the temporary name first, if there is one. */
  function Leave(w: Writer, result: Outcome): Writer {
    w.(pc := if w.tmp.Some? then Cleanup(result) else Finished(result))
  }

  /** `verifyExisting` threw UNSAFE_FILESYSTEM: only the competing caller looks again. */
  function Unsafe(w: Writer, ctx: Context): Writer {
    if ctx.Competing? then w.(pc := Recheck(ctx.attempt)) else Leave(w, Error)
  }

  function StartStep(hash: Blob -> int, key: Key, w: Writer): Writer {
    if hash(w.payload) == key.checksum && |w.payload| == key.byteLength && key.byteLength >= 1
    then w.(pc := Lstat(First)) else Leave(w, Error)
  }

  function LstatStep(key: Key, fs: Fs, w: Writer, ctx: Context): Writer {
    if Final !in fs.names then
      if ctx.First? then w.(pc := OpenTemp) else Leave(w, Error)
    else
      var d := fs.names[Final];
      if d >= |fs.inodes| then Leave(w, Error)
      else if !fs.inodes[d].sealed || fs.inodes[d].nlink != 1 then Unsafe(w, ctx)
      else if |fs.inodes[d].bytes| != key.byteLength then Leave(w, Error)
      else w.(pc := Open(ctx, d))
  }

  function OpenStep(fs: Fs, w: Writer, ctx: Context, seen: Ino): Writer {
    if Final in fs.names then w.(pc := Fstat(ctx, seen, fs.names[Final])) else Leave(w, Error)
  }

  function FstatStep(key: Key, fs: Fs, w: Writer, ctx: Context, seen: Ino, handle: Ino): Writer {
    if handle == seen && handle < |fs.inodes| && fs.inodes[handle].sealed && fs.inodes[handle].nlink == 1
       && |fs.inodes[handle].bytes| == key.byteLength
    then w.(pc := Read(ctx, seen, handle, []))
    else Leave(w, Error)
  }

  /** One `read`: nothing left ends the loop; more bytes than declared is a conflict. */
  function ReadStep(key: Key, fs: Fs, w: Writer, ctx: Context, seen: Ino, handle: Ino, got: Blob, n: nat): Writer {
    if handle >= |fs.inodes| || |fs.inodes[handle].bytes| < |got| then Leave(w, Error)
    else
      var bytes := fs.inodes[handle].bytes;
      var moved := Moved(n, Min(key.byteLength + 1 - Min(|got|, key.byteLength + 1), |bytes| - |got|));
      if moved == 0 then w.(pc := FstatAgain(ctx, seen, handle, got))
      else if |got| + moved > key.byteLength then Leave(w, Error)
      else w.(pc := Read(ctx, seen, handle, got + bytes[|got|..|got| + moved]))
  }

  function FstatAgainStep(hash: Blob -> int, key: Key, fs: Fs, w: Writer, ctx: Context, seen: Ino, handle: Ino,
                          got: Blob): Writer {
    if handle < |fs.inodes| && fs.inodes[handle].sealed && fs.inodes[handle].nlink == 1
       && |fs.inodes[handle].bytes| == key.byteLength
       && |got| == key.byteLength && hash(got) == key.checksum
    then w.(pc := LstatAgain(ctx, seen))
    else Leave(w, Error)
  }

  function LstatAgainStep(key: Key, fs: Fs, w: Writer, ctx: Context, seen: Ino): Writer {
    if Final in fs.names && fs.names[Final] == seen && seen < |fs.inodes| && fs.inodes[seen].sealed
       && fs.inodes[seen].nlink == 1 && |fs.inodes[seen].bytes| == key.byteLength
    then Leave(w, if ctx.Own? then Stored else AlreadyPresent)
    else Leave(w, Error)
  }

  /** The extra `lstat` of a competing publisher, bounded to sixteen attempts. */
  function RecheckStep(key: Key, fs: Fs, w: Writer, attempt: nat): Writer {
    if Final !in fs.names || fs.names[Final] >= |fs.inodes| then Leave(w, Error)
    else
      var i := fs.inodes[fs.names[Final]];
      if !i.sealed || |i.bytes| != key.byteLength || (i.nlink != 1 && i.nlink != 2) then Leave(w, Error)
      else if attempt + 1 < MAX_ATTEMPTS then w.(pc := Lstat(Competing(attempt + 1)))
      else Leave(w, Error)
  }

  /** `unlink` of this writer's temporary name. */
  function Unlinked(fs: Fs, t: nat): Fs {
    if Temp(t) !in fs.names || fs.names[Temp(t)] >= |fs.inodes| then fs
    else
      var ino := fs.names[Temp(t)];
      var links := fs.inodes[ino].nlink;
      Fs(map name | name in fs.names && name != Temp(t) :: fs.names[name],
         fs.inodes[ino := fs.inodes[ino].(nlink := if links == 0 then 0 else links - 1)])
  }

  function Step(hash: Blob -> int, key: Key, fs: Fs, w: Writer, n: nat): (Fs, Writer) {
    match w.pc
    case Start => (fs, StartStep(hash, key, w))
    case Lstat(ctx) => (fs, LstatStep(key, fs, w, ctx))
    case Open(ctx, seen) => (fs, OpenStep(fs, w, ctx, seen))
    case Fstat(ctx, seen, handle) => (fs, FstatStep(key, fs, w, ctx, seen, handle))
    case Read(ctx, seen, handle, got) => (fs, ReadStep(key, fs, w, ctx, seen, handle, got, n))
    case FstatAgain(ctx, seen, handle, got) => (fs, FstatAgainStep(hash, key, fs, w, ctx, seen, handle, got))
    case LstatAgain(ctx, seen) => (fs, LstatAgainStep(key, fs, w, ctx, seen))
    case Recheck(attempt) => (fs, RecheckStep(key, fs, w, attempt))
    case OpenTemp =>
      if Temp(n) in fs.names then (fs, Leave(w, Error))
      else (Fs(fs.names[Temp(n) := |fs.inodes|], fs.inodes + [Inode([], false, 1)]),
            w.(pc := Fill(0), tmp := Some(n), ino := |fs.inodes|))
    case Fill(offset) =>
      if offset >= |w.payload| then (fs, w.(pc := Seal))
      else if w.ino >= |fs.inodes| || |fs.inodes[w.ino].bytes| < offset then (fs, Leave(w, Error))
      else
        var moved := Moved(n, |w.payload| - offset);
        var bytes := fs.inodes[w.ino].bytes[..offset] + w.payload[offset..offset + moved];
        (fs.(inodes := fs.inodes[w.ino := fs.inodes[w.ino].(bytes := bytes)]), w.(pc := Fill(offset + moved)))
    case Seal =>
      if w.ino >= |fs.inodes| then (fs, Leave(w, Error))
      else (fs.(inodes := fs.inodes[w.ino := fs.inodes[w.ino].(sealed := true)]), w.(pc := CheckSealed))
    case CheckSealed =>
      if w.ino < |fs.inodes| && |fs.inodes[w.ino].bytes| == key.byteLength && fs.inodes[w.ino].nlink == 1
         && fs.inodes[w.ino].sealed
      then (fs, w.(pc := Link)) else (fs, Leave(w, Error))
    case Link =>
      if w.tmp.None? || Temp(w.tmp.value) !in fs.names || w.ino >= |fs.inodes| then (fs, Leave(w, Error))
      else if Final in fs.names then (fs, w.(pc := Lstat(Competing(0))))
      else (Fs(fs.names[Final := fs.names[Temp(w.tmp.value)]],
               fs.inodes[w.ino := fs.inodes[w.ino].(nlink := fs.inodes[w.ino].nlink + 1)]),
            w.(pc := UnlinkTemp, linked := true))
    case UnlinkTemp =>
      if w.tmp.None? then (fs, Leave(w, Error))
      else (Unlinked(fs, w.tmp.value), w.(pc := Lstat(Own), tmp := None))
    case Cleanup(result) =>
      if w.tmp.None? then (fs, w.(pc := Finished(result)))
      else (Unlinked(fs, w.tmp.value), w.(pc := Finished(result), tmp := None))
    case Finished(_) => (fs, w)
  }

  /** An error or cancellation here; a failing cleanup leaves the temporary name behind. */
  function Fail(w: Writer): Writer {
    if w.pc.Finished? then w
    else if w.pc.Cleanup? then w.(pc := Finished(Error))
    else Leave(w, Error)
  }

  function Next(hash: Blob -> int, key: Key, s: State, e: Event): State {
    if e.writer >= |s.writers| then s
    else match e
      case Moves(i, n) =>
        var (fs, w) := Step(hash, key, s.fs, s.writers[i], n);
        State(fs, s.writers[i := w])
      case Fails(i) => s.(writers := s.writers[i := Fail(s.writers[i])])
  }

  function Run(hash: Blob -> int, key: Key, s: State, events: seq<Event>): State
    decreases |events|
  {
    if events == [] then s else Run(hash, key, Next(hash, key, s, events[0]), events[1..])
  }

  /** An empty directory and one fresh writer per payload. */
  function Initial(payloads: seq<Blob>): State {
    State(Fs(map[], []), seq(|payloads|, i requires 0 <= i < |payloads| => Writer(payloads[i], Start, None, 0, false)))
  }

  ghost predicate Injective(hash: Blob -> int) {
    forall a, b :: hash(a) == hash(b) ==> a == b
  }

  // ----- The inductive invariant

  ghost predicate Good(hash: Blob -> int, key: Key, b: Blob) {
    hash(b) == key.checksum && |b| == key.byteLength
  }

  /** The final name, once present, leads to a sealed inode with a payload of the key. */
  ghost predicate FinalInv(hash: Blob -> int, key: Key, fs: Fs) {
    Final in fs.names ==>
      && fs.names[Final] < |fs.inodes|
      && fs.inodes[fs.names[Final]].sealed
      && Good(hash, key, fs.inodes[fs.names[Final]].bytes)
  }

  /** The final inode has been seen with exactly one link. */
  ghost predicate Single(fs: Fs) {
    Final in fs.names && fs.names[Final] < |fs.inodes| && fs.inodes[fs.names[Final]].nlink == 1
  }

  /** Before the link call this writer alone fills its inode. */
  predicate Filling(pc: Pc) {
    pc.Fill? || pc.Seal? || pc.CheckSealed? || pc.Link?
  }

  ghost predicate TempInv(fs: Fs, w: Writer) {
    && (w.tmp.Some? ==>
          && Temp(w.tmp.value) in fs.names
          && fs.names[Temp(w.tmp.value)] == w.ino
          && w.ino < |fs.inodes|
          && fs.inodes[w.ino].nlink == (if w.linked then 2 else 1)
          && (Final in fs.names && fs.names[Final] == w.ino ==> w.linked))
    && (w.linked ==> Final in fs.names && fs.names[Final] == w.ino)
  }

  ghost predicate PcInv(hash: Blob -> int, key: Key, fs: Fs, w: Writer) {
    && (w.pc.Start? || w.pc == Finished(Error) || Good(hash, key, w.payload))
    && (w.pc.Start? || w.pc.OpenTemp? ==> w.tmp.None? && !w.linked)
    && (Filling(w.pc) ==> w.tmp.Some? && !w.linked && w.ino < |fs.inodes|)
    && (w.pc.Fill? ==> w.pc.offset <= |w.payload| && fs.inodes[w.ino].bytes == w.payload[..w.pc.offset])
    && (w.pc.Seal? || w.pc.CheckSealed? || w.pc.Link? ==> fs.inodes[w.ino].bytes == w.payload)
    && (w.pc.CheckSealed? || w.pc.Link? ==> fs.inodes[w.ino].sealed)
    && (w.pc.UnlinkTemp? ==> w.tmp.Some? && w.linked)
    && (w.pc.Recheck? ==> w.tmp.Some? && !w.linked)
    && (w.pc.Cleanup? ==>
          w.tmp.Some? && w.pc.result != Stored && (w.pc.result == AlreadyPresent ==> !w.linked && Single(fs)))
    && (w.pc.Finished? ==>
          && (w.pc.result == Stored ==> w.linked && w.tmp.None? && Single(fs))
          && (w.pc.result == AlreadyPresent ==> w.tmp.None? && Single(fs)))
  }

  /** Inside `verifyExisting`: the handle is the final inode and what was read is a prefix of it. */
  ghost predicate VerifyInv(fs: Fs, w: Writer) {
    && (w.pc.Lstat? || w.pc.Open? || w.pc.Fstat? || w.pc.Read? || w.pc.FstatAgain? || w.pc.LstatAgain? ==>
          match w.pc.ctx
          case First => w.tmp.None? && !w.linked
          case Own => w.tmp.None? && w.linked
          case Competing(_) => w.tmp.Some? && !w.linked)
    && (w.pc.Open? ==> Final in fs.names && w.pc.seen == fs.names[Final])
    && (w.pc.Fstat? || w.pc.Read? || w.pc.FstatAgain? ==>
          Final in fs.names && w.pc.seen == w.pc.handle == fs.names[Final])
    && (w.pc.Read? || w.pc.FstatAgain? ==>
          Single(fs) && w.pc.got <= fs.inodes[fs.names[Final]].bytes)
    && (w.pc.LstatAgain? ==> Single(fs) && w.pc.seen == fs.names[Final])
  }

  ghost predicate WriterInv(hash: Blob -> int, key: Key, fs: Fs, w: Writer) {
    TempInv(fs, w) && PcInv(hash, key, fs, w) && VerifyInv(fs, w)
  }

  /** Two writers never share a temporary file, and only one creates the final name. */
  ghost predicate Apart(v: Writer, w: Writer) {
    && (v.tmp.Some? && w.tmp.Some? ==> v.tmp != w.tmp && v.ino != w.ino)
    && !(v.linked && w.linked)
  }

  /** Every link is accounted for by the final name and the live temporary names. */
  ghost predicate LinkInv(s: State) {
    && (forall t: nat | Temp(t) in s.fs.names :: exists i :: 0 <= i < |s.writers| && s.writers[i].tmp == Some(t))
    && (Final in s.fs.names ==>
          || (exists i :: 0 <= i < |s.writers| && s.writers[i].linked && s.writers[i].tmp.Some?)
          || Single(s.fs))
    && (Final in s.fs.names ==> exists i :: 0 <= i < |s.writers| && s.writers[i].linked)
  }

  ghost predicate Inv(hash: Blob -> int, key: Key, s: State) {
    && FinalInv(hash, key, s.fs)
    && (forall i | 0 <= i < |s.writers| :: WriterInv(hash, key, s.fs, s.writers[i]))
    && (forall i, j | 0 <= i < j < |s.writers| :: Apart(s.writers[i], s.writers[j]))
    && LinkInv(s)
  }

  lemma InitialHolds(hash: Blob -> int, key: Key, payloads: seq<Blob>)
    ensures Inv(hash, key, Initial(payloads))
  {
  }

  // ----- Steps that leave the file system alone

  lemma LeaveKeeps(hash: Blob -> int, key: Key, fs: Fs, w: Writer, result: Outcome)
    requires WriterInv(hash, key, fs, w)
    requires !w.pc.Finished?
    requires result == Stored ==> w.linked && w.tmp.None? && Single(fs) && Good(hash, key, w.payload)
    requires result == AlreadyPresent ==> !w.linked && Single(fs) && Good(hash, key, w.payload)
    ensures WriterInv(hash, key, fs, Leave(w, result))
  {
  }

  predicate Quiet(pc: Pc) {
    !(pc.OpenTemp? || pc.Fill? || pc.Seal? || pc.Link? || pc.UnlinkTemp? || pc.Cleanup?)
  }

  ghost predicate SameFiles(v: Writer, w: Writer) {
    v.tmp == w.tmp && v.ino == w.ino && v.linked == w.linked
  }

  lemma LstatKeeps(hash: Blob -> int, key: Key, fs: Fs, w: Writer)
    requires FinalInv(hash, key, fs) && WriterInv(hash, key, fs, w) && w.pc.Lstat?
    ensures WriterInv(hash, key, fs, LstatStep(key, fs, w, w.pc.ctx)) && SameFiles(w, LstatStep(key, fs, w, w.pc.ctx))
  {
    LeaveKeeps(hash, key, fs, w, Error);
  }

  lemma OpenKeeps(hash: Blob -> int, key: Key, fs: Fs, w: Writer)
    requires FinalInv(hash, key, fs) && WriterInv(hash, key, fs, w) && (w.pc.Open? || w.pc.Fstat?)
    ensures w.pc.Open? ==> WriterInv(hash, key, fs, OpenStep(fs, w, w.pc.ctx, w.pc.seen))
    ensures w.pc.Fstat? ==> WriterInv(hash, key, fs, FstatStep(key, fs, w, w.pc.ctx, w.pc.seen, w.pc.handle))
  {
    LeaveKeeps(hash, key, fs, w, Error);
  }

  lemma ReadKeeps(hash: Blob -> int, key: Key, fs: Fs, w: Writer, n: nat)
    requires FinalInv(hash, key, fs) && WriterInv(hash, key, fs, w) && w.pc.Read?
    ensures WriterInv(hash, key, fs, ReadStep(key, fs, w, w.pc.ctx, w.pc.seen, w.pc.handle, w.pc.got, n))
  {
    LeaveKeeps(hash, key, fs, w, Error);
    var bytes := fs.inodes[fs.names[Final]].bytes;
    var got := w.pc.got;
    var moved := Moved(n, Min(key.byteLength + 1 - Min(|got|, key.byteLength + 1), |bytes| - |got|));
    assert got + bytes[|got|..|got| + moved] == bytes[..|got| + moved];
  }

  lemma CheckedKeeps(hash: Blob -> int, key: Key, fs: Fs, w: Writer)
    requires FinalInv(hash, key, fs) && WriterInv(hash, key, fs, w) && (w.pc.FstatAgain? || w.pc.LstatAgain?)
    ensures w.pc.FstatAgain? ==>
              WriterInv(hash, key, fs, FstatAgainStep(hash, key, fs, w, w.pc.ctx, w.pc.seen, w.pc.handle, w.pc.got))
    ensures w.pc.LstatAgain? ==> WriterInv(hash, key, fs, LstatAgainStep(key, fs, w, w.pc.ctx, w.pc.seen))
  {
    LeaveKeeps(hash, key, fs, w, Error);
    if w.pc.LstatAgain? {
      LeaveKeeps(hash, key, fs, w, if w.pc.ctx.Own? then Stored else AlreadyPresent);
    }
  }

  lemma RecheckKeeps(hash: Blob -> int, key: Key, fs: Fs, w: Writer)
    requires FinalInv(hash, key, fs) && WriterInv(hash, key, fs, w) && w.pc.Recheck?
    ensures WriterInv(hash, key, fs, RecheckStep(key, fs, w, w.pc.attempt))
  {
    LeaveKeeps(hash, key, fs, w, Error);
  }

  lemma QuietStepKeeps(hash: Blob -> int, key: Key, fs: Fs, w: Writer, n: nat)
    requires FinalInv(hash, key, fs) && WriterInv(hash, key, fs, w) && Quiet(w.pc)
    ensures WriterInv(hash, key, fs, Step(hash, key, fs, w, n).1)
  {
    match w.pc
    case Start => LeaveKeeps(hash, key, fs, w, Error);
    case Lstat(_) => LstatKeeps(hash, key, fs, w);
    case Open(_, _) => OpenKeeps(hash, key, fs, w);
    case Fstat(_, _, _) => OpenKeeps(hash, key, fs, w);
    case Read(_, _, _, _) => ReadKeeps(hash, key, fs, w, n);
    case FstatAgain(_, _, _, _) => CheckedKeeps(hash, key, fs, w);
    case LstatAgain(_, _) => CheckedKeeps(hash, key, fs, w);
    case Recheck(_) => RecheckKeeps(hash, key, fs, w);
    case CheckSealed => LeaveKeeps(hash, key, fs, w, Error);
    case Finished(_) =>
  }

  lemma QuietStepKeepsFiles(hash: Blob -> int, key: Key, fs: Fs, w: Writer, n: nat)
    requires Quiet(w.pc)
    ensures Step(hash, key, fs, w, n).0 == fs
    ensures SameFiles(w, Step(hash, key, fs, w, n).1)
  {
  }

  // ----- Steps that change the file system: what they do to the writer and to every other writer

  lemma CreateKeeps(hash: Blob -> int, key: Key, fs: Fs, w: Writer, v: Writer, n: nat)
    requires FinalInv(hash, key, fs) && WriterInv(hash, key, fs, w) && WriterInv(hash, key, fs, v)
    requires w.pc.OpenTemp? && Temp(n) !in fs.names
    ensures var (fs', w') := Step(hash, key, fs, w, n);
            FinalInv(hash, key, fs') && WriterInv(hash, key, fs', w') && WriterInv(hash, key, fs', v)
              && (Apart(w, v) ==> Apart(w', v))
  {
  }

  /** Writing to or sealing an unpublished inode concerns nobody else. */
  lemma TouchKeepsOthers(hash: Blob -> int, key: Key, fs: Fs, w: Writer, v: Writer, inode: Inode)
    requires FinalInv(hash, key, fs) && WriterInv(hash, key, fs, w) && WriterInv(hash, key, fs, v) && Apart(w, v)
    requires Filling(w.pc) && inode.nlink == fs.inodes[w.ino].nlink
    ensures var fs' := fs.(inodes := fs.inodes[w.ino := inode]);
            FinalInv(hash, key, fs') && WriterInv(hash, key, fs', v)
  {
  }

  lemma FillKeeps(hash: Blob -> int, key: Key, fs: Fs, w: Writer, n: nat)
    requires FinalInv(hash, key, fs) && WriterInv(hash, key, fs, w) && w.pc.Fill?
    ensures var (fs', w') := Step(hash, key, fs, w, n); WriterInv(hash, key, fs', w') && SameFiles(w, w')
  {
    var offset := w.pc.offset;
    if offset < |w.payload| {
      var moved := Moved(n, |w.payload| - offset);
      assert w.payload[..offset] + w.payload[offset..offset + moved] == w.payload[..offset + moved];
      assert fs.inodes[w.ino].bytes[..offset] == w.payload[..offset];
    } else {
      assert w.payload[..offset] == w.payload;
    }
  }

  lemma SealKeeps(hash: Blob -> int, key: Key, fs: Fs, w: Writer, n: nat)
    requires FinalInv(hash, key, fs) && WriterInv(hash, key, fs, w) && w.pc.Seal?
    ensures var (fs', w') := Step(hash, key, fs, w, n); WriterInv(hash, key, fs', w') && SameFiles(w, w')
  {
  }

  /** The hard link is atomic: the loser of the race sees the final name and starts verifying. */
  lemma LinkKeeps(hash: Blob -> int, key: Key, fs: Fs, w: Writer, n: nat)
    requires FinalInv(hash, key, fs) && WriterInv(hash, key, fs, w) && w.pc.Link?
    ensures var (fs', w') := Step(hash, key, fs, w, n);
            FinalInv(hash, key, fs') && WriterInv(hash, key, fs', w')
  {
  }

  lemma LinkKeepsOthers(hash: Blob -> int, key: Key, fs: Fs, w: Writer, v: Writer, n: nat)
    requires FinalInv(hash, key, fs) && WriterInv(hash, key, fs, w) && WriterInv(hash, key, fs, v) && Apart(w, v)
    requires w.pc.Link?
    ensures var (fs', w') := Step(hash, key, fs, w, n); WriterInv(hash, key, fs', v) && Apart(w', v)
  {
  }

  /** Removing a temporary name never touches the final one, and drops its inode to one link. */
  lemma UnlinkKeeps(hash: Blob -> int, key: Key, fs: Fs, w: Writer, n: nat)
    requires FinalInv(hash, key, fs) && WriterInv(hash, key, fs, w) && (w.pc.UnlinkTemp? || w.pc.Cleanup?)
    ensures var (fs', w') := Step(hash, key, fs, w, n);
            FinalInv(hash, key, fs') && WriterInv(hash, key, fs', w')
  {
  }

  lemma UnlinkKeepsOthers(hash: Blob -> int, key: Key, fs: Fs, w: Writer, v: Writer)
    requires FinalInv(hash, key, fs) && WriterInv(hash, key, fs, w) && WriterInv(hash, key, fs, v) && Apart(w, v)
    requires w.tmp.Some?
    ensures WriterInv(hash, key, Unlinked(fs, w.tmp.value), v)
  {
  }

  // ----- Whole-state preservation

  /** The same directory and link counts. */
  ghost predicate SameLinks(fs: Fs, fs': Fs) {
    && fs'.names == fs.names
    && |fs'.inodes| == |fs.inodes|
    && forall i | 0 <= i < |fs.inodes| :: fs'.inodes[i].nlink == fs.inodes[i].nlink
  }

  lemma LinkInvOnSameLinks(s: State, i: nat, fs': Fs, w': Writer)
    requires LinkInv(s) && i < |s.writers|
    requires SameLinks(s.fs, fs') && SameFiles(s.writers[i], w')
    ensures LinkInv(State(fs', s.writers[i := w']))
  {
    var s' := State(fs', s.writers[i := w']);
    assert forall k | 0 <= k < |s.writers| ::
      s'.writers[k].tmp == s.writers[k].tmp && s'.writers[k].linked == s.writers[k].linked;
  }

  lemma LinkInvOnCreate(hash: Blob -> int, key: Key, s: State, i: nat, n: nat)
    requires Inv(hash, key, s) && i < |s.writers|
    requires s.writers[i].pc.OpenTemp? && Temp(n) !in s.fs.names
    ensures LinkInv(Next(hash, key, s, Moves(i, n)))
  {
    var s' := Next(hash, key, s, Moves(i, n));
    assert s'.writers[i].tmp == Some(n);
    assert s.writers[i].tmp.None? && !s.writers[i].linked;
    assert forall k | 0 <= k < |s.writers| && k != i :: s'.writers[k] == s.writers[k];
    forall t: nat | Temp(t) in s'.fs.names
      ensures exists k :: 0 <= k < |s'.writers| && s'.writers[k].tmp == Some(t)
    {
      if t != n {
        var k :| 0 <= k < |s.writers| && s.writers[k].tmp == Some(t);
        assert s'.writers[k].tmp == Some(t);
      }
    }
    if Final in s.fs.names {
      var k :| 0 <= k < |s.writers| && s.writers[k].linked;
      assert s'.writers[k].linked;
    }
  }

  lemma LinkInvOnLink(hash: Blob -> int, key: Key, s: State, i: nat, n: nat)
    requires Inv(hash, key, s) && i < |s.writers|
    requires s.writers[i].pc.Link?
    ensures LinkInv(Next(hash, key, s, Moves(i, n)))
  {
    var s' := Next(hash, key, s, Moves(i, n));
    assert forall k | 0 <= k < |s.writers| :: s'.writers[k].tmp == s.writers[k].tmp;
    assert Final in s.fs.names ==> forall k | 0 <= k < |s.writers| :: s'.writers[k].linked == s.writers[k].linked;
    assert Final !in s.fs.names ==> s'.writers[i].linked && s'.writers[i].tmp.Some?;
    forall t: nat | Temp(t) in s'.fs.names
      ensures exists k :: 0 <= k < |s'.writers| && s'.writers[k].tmp == Some(t)
    {
      var k :| 0 <= k < |s.writers| && s.writers[k].tmp == Some(t);
      assert s'.writers[k].tmp == Some(t);
    }
  }

  lemma LinkInvOnUnlink(hash: Blob -> int, key: Key, s: State, i: nat, n: nat)
    requires Inv(hash, key, s) && i < |s.writers|
    requires s.writers[i].pc.UnlinkTemp? || s.writers[i].pc.Cleanup?
    ensures LinkInv(Next(hash, key, s, Moves(i, n)))
  {
    var s' := Next(hash, key, s, Moves(i, n));
    var w := s.writers[i];
    assert WriterInv(hash, key, s.fs, w);
    assert forall k | 0 <= k < |s.writers| && k != i :: s'.writers[k] == s.writers[k];
    assert s'.writers[i].linked == w.linked;
    forall t: nat | Temp(t) in s'.fs.names
      ensures exists k :: 0 <= k < |s'.writers| && s'.writers[k].tmp == Some(t)
    {
      assert Some(t) != w.tmp;
      var k :| 0 <= k < |s.writers| && s.writers[k].tmp == Some(t);
      assert s'.writers[k].tmp == Some(t);
    }
    if Final in s'.fs.names {
      var k :| 0 <= k < |s.writers| && s.writers[k].linked;
      assert s'.writers[k].linked;
      if w.linked {
        assert Single(s'.fs);
      } else if Single(s.fs) {
        assert Single(s'.fs);
      } else {
        var j :| 0 <= j < |s.writers| && s.writers[j].linked && s.writers[j].tmp.Some?;
        assert s'.writers[j].linked && s'.writers[j].tmp.Some?;
      }
    }
  }

  lemma ApartAll(s: State, i: nat, j: nat)
    requires forall k, m | 0 <= k < m < |s.writers| :: Apart(s.writers[k], s.writers[m])
    requires i < |s.writers| && j < |s.writers| && i != j
    ensures Apart(s.writers[i], s.writers[j])
  {
  }

  /** One step of writer i keeps i's and every other writer's invariant, and keeps them apart. */
  lemma StepKeeps(hash: Blob -> int, key: Key, s: State, i: nat, n: nat)
    requires Inv(hash, key, s) && i < |s.writers|
    ensures var (fs', w') := Step(hash, key, s.fs, s.writers[i], n);
            FinalInv(hash, key, fs') && WriterInv(hash, key, fs', w')
  {
    var w := s.writers[i];
    assert WriterInv(hash, key, s.fs, w);
    if Quiet(w.pc) {
      QuietStepKeeps(hash, key, s.fs, w, n);
      QuietStepKeepsFiles(hash, key, s.fs, w, n);
    } else if w.pc.OpenTemp? {
      if Temp(n) in s.fs.names {
        LeaveKeeps(hash, key, s.fs, w, Error);
      } else {
        CreateKeeps(hash, key, s.fs, w, w, n);
      }
    } else if w.pc.Fill? {
      FillKeeps(hash, key, s.fs, w, n);
      var bytes := if w.pc.offset < |w.payload| then Step(hash, key, s.fs, w, n).0.inodes[w.ino]
        else s.fs.inodes[w.ino];
      FinalApart(hash, key, s.fs, w, bytes);
    } else if w.pc.Seal? {
      SealKeeps(hash, key, s.fs, w, n);
      FinalApart(hash, key, s.fs, w, s.fs.inodes[w.ino].(sealed := true));
    } else if w.pc.Link? {
      LinkKeeps(hash, key, s.fs, w, n);
    } else {
      UnlinkKeeps(hash, key, s.fs, w, n);
    }
  }

  lemma FinalApart(hash: Blob -> int, key: Key, fs: Fs, w: Writer, inode: Inode)
    requires FinalInv(hash, key, fs) && WriterInv(hash, key, fs, w) && Filling(w.pc)
    ensures FinalInv(hash, key, fs.(inodes := fs.inodes[w.ino := inode]))
  {
  }

  lemma StepKeepsOther(hash: Blob -> int, key: Key, s: State, i: nat, j: nat, n: nat)
    requires Inv(hash, key, s) && i < |s.writers| && j < |s.writers| && i != j
    ensures var (fs', w') := Step(hash, key, s.fs, s.writers[i], n);
            WriterInv(hash, key, fs', s.writers[j]) && Apart(w', s.writers[j])
  {
    var w, v := s.writers[i], s.writers[j];
    assert WriterInv(hash, key, s.fs, w) && WriterInv(hash, key, s.fs, v);
    ApartAll(s, i, j);
    hide WriterInv, FinalInv, Step, Unlinked;
    if Quiet(w.pc) {
      QuietStepKeepsFiles(hash, key, s.fs, w, n);
    } else if w.pc.OpenTemp? {
      OpenTempKeepsOthers(hash, key, s.fs, w, v, n);
    } else if w.pc.Fill? || w.pc.Seal? {
      WriteKeepsOthers(hash, key, s.fs, w, v, n);
    } else if w.pc.Link? {
      LinkKeepsOthers(hash, key, s.fs, w, v, n);
    } else {
      UnlinkStepKeepsOthers(hash, key, s.fs, w, v, n);
    }
  }

  lemma OpenTempKeepsOthers(hash: Blob -> int, key: Key, fs: Fs, w: Writer, v: Writer, n: nat)
    requires FinalInv(hash, key, fs) && WriterInv(hash, key, fs, w) && WriterInv(hash, key, fs, v) && Apart(w, v)
    requires w.pc.OpenTemp?
    ensures var (fs', w') := Step(hash, key, fs, w, n); WriterInv(hash, key, fs', v) && Apart(w', v)
  {
    if Temp(n) !in fs.names {
      hide Step;
      CreateKeeps(hash, key, fs, w, v, n);
    }
  }

  lemma WriteKeepsOthers(hash: Blob -> int, key: Key, fs: Fs, w: Writer, v: Writer, n: nat)
    requires FinalInv(hash, key, fs) && WriterInv(hash, key, fs, w) && WriterInv(hash, key, fs, v) && Apart(w, v)
    requires w.pc.Fill? || w.pc.Seal?
    ensures var (fs', w') := Step(hash, key, fs, w, n); WriterInv(hash, key, fs', v) && Apart(w', v)
  {
    if w.pc.Seal? {
      SealKeeps(hash, key, fs, w, n);
      TouchKeepsOthers(hash, key, fs, w, v, fs.inodes[w.ino].(sealed := true));
    } else {
      FillKeeps(hash, key, fs, w, n);
      if w.pc.offset < |w.payload| {
        TouchKeepsOthers(hash, key, fs, w, v, Step(hash, key, fs, w, n).0.inodes[w.ino]);
      }
    }
  }

  lemma UnlinkStepKeepsOthers(hash: Blob -> int, key: Key, fs: Fs, w: Writer, v: Writer, n: nat)
    requires FinalInv(hash, key, fs) && WriterInv(hash, key, fs, w) && WriterInv(hash, key, fs, v) && Apart(w, v)
    requires w.pc.UnlinkTemp? || w.pc.Cleanup?
    ensures var (fs', w') := Step(hash, key, fs, w, n); WriterInv(hash, key, fs', v) && Apart(w', v)
  {
    if w.tmp.Some? {
      UnlinkKeepsOthers(hash, key, fs, w, v);
      hide WriterInv, FinalInv, Unlinked;
    }
  }

  lemma StepKeepsLinks(hash: Blob -> int, key: Key, s: State, i: nat, n: nat)
    requires Inv(hash, key, s) && i < |s.writers|
    ensures LinkInv(Next(hash, key, s, Moves(i, n)))
  {
    var w := s.writers[i];
    var (fs', w') := Step(hash, key, s.fs, w, n);
    assert WriterInv(hash, key, s.fs, w);
    if Quiet(w.pc) {
      QuietStepKeepsFiles(hash, key, s.fs, w, n);
      LinkInvOnSameLinks(s, i, fs', w');
    } else if w.pc.OpenTemp? {
      if Temp(n) in s.fs.names { LinkInvOnSameLinks(s, i, fs', w'); } else { LinkInvOnCreate(hash, key, s, i, n); }
    } else if w.pc.Fill? || w.pc.Seal? {
      LinkInvOnSameLinks(s, i, fs', w');
    } else if w.pc.Link? {
      LinkInvOnLink(hash, key, s, i, n);
    } else {
      LinkInvOnUnlink(hash, key, s, i, n);
    }
  }

  lemma NextKeeps(hash: Blob -> int, key: Key, s: State, e: Event)
    requires Inv(hash, key, s)
    ensures Inv(hash, key, Next(hash, key, s, e))
  {
    if e.writer < |s.writers| {
      var i := e.writer;
      var s' := Next(hash, key, s, e);
      if e.Moves? {
        StepKeeps(hash, key, s, i, e.n);
        StepKeepsLinks(hash, key, s, i, e.n);
        forall j | 0 <= j < |s.writers| && j != i
          ensures WriterInv(hash, key, s'.fs, s'.writers[j])
          ensures Apart(s'.writers[i], s'.writers[j]) && Apart(s'.writers[j], s'.writers[i])
        {
          StepKeepsOther(hash, key, s, i, j, e.n);
        }
      } else {
        FailKeeps(hash, key, s.fs, s.writers[i]);
        LinkInvOnSameLinks(s, i, s.fs, Fail(s.writers[i]));
      }
    }
  }

  lemma FailKeeps(hash: Blob -> int, key: Key, fs: Fs, w: Writer)
    requires WriterInv(hash, key, fs, w)
    ensures WriterInv(hash, key, fs, Fail(w)) && SameFiles(w, Fail(w))
  {
    if !w.pc.Finished? && !w.pc.Cleanup? { LeaveKeeps(hash, key, fs, w, Error); }
  }

  lemma {:induction false} RunKeeps(hash: Blob -> int, key: Key, s: State, events: seq<Event>)
    requires Inv(hash, key, s)
    ensures Inv(hash, key, Run(hash, key, s, events))
    decreases |events|
  {
    if events != [] {
      NextKeeps(hash, key, s, events[0]);
      RunKeeps(hash, key, Next(hash, key, s, events[0]), events[1..]);
    }
  }

  // ----- Main theorems: any number of writers, any interleaving

  /** Name, inode, bytes and seal of the final file are fixed; its links only go down. */
  ghost predicate FinalFixed(fs: Fs, fs': Fs) {
    Final in fs.names && fs.names[Final] < |fs.inodes| ==>
      && Final in fs'.names && fs'.names[Final] == fs.names[Final] && fs'.names[Final] < |fs'.inodes|
      && fs'.inodes[fs'.names[Final]].bytes == fs.inodes[fs.names[Final]].bytes
      && fs'.inodes[fs'.names[Final]].sealed == fs.inodes[fs.names[Final]].sealed
      && fs'.inodes[fs'.names[Final]].nlink <= fs.inodes[fs.names[Final]].nlink
  }

  lemma NextFixesFinal(hash: Blob -> int, key: Key, s: State, e: Event)
    requires Inv(hash, key, s)
    ensures FinalFixed(s.fs, Next(hash, key, s, e).fs)
  {
    if e.writer < |s.writers| && e.Moves? {
      var w := s.writers[e.writer];
      assert WriterInv(hash, key, s.fs, w);
      if Quiet(w.pc) { QuietStepKeepsFiles(hash, key, s.fs, w, e.n); }
    }
  }

  lemma {:induction false} RunFixesFinal(hash: Blob -> int, key: Key, s: State, events: seq<Event>)
    requires Inv(hash, key, s)
    ensures FinalFixed(s.fs, Run(hash, key, s, events).fs)
    decreases |events|
  {
    if events != [] {
      NextFixesFinal(hash, key, s, events[0]);
      NextKeeps(hash, key, s, events[0]);
      RunFixesFinal(hash, key, Next(hash, key, s, events[0]), events[1..]);
    }
  }

  lemma {:induction false} RunConcat(hash: Blob -> int, key: Key, s: State, before: seq<Event>, after: seq<Event>)
    ensures Run(hash, key, s, before + after) == Run(hash, key, Run(hash, key, s, before), after)
    decreases |before|
  {
    if before == [] {
      assert before + after == after;
    } else {
      assert (before + after)[0] == before[0] && (before + after)[1..] == before[1..] + after;
      RunConcat(hash, key, Next(hash, key, s, before[0]), before[1..], after);
    }
  }

  /** Once the final name appears it keeps its inode and its bytes for ever, and they carry the key's checksum. */
  lemma PublishedFileIsImmutable(hash: Blob -> int, key: Key, payloads: seq<Blob>, events: seq<Event>, more: seq<Event>)
    ensures var s, t := Run(hash, key, Initial(payloads), events), Run(hash, key, Initial(payloads), events + more);
            Final in s.fs.names ==>
              && s.fs.names[Final] < |s.fs.inodes|
              && FinalFixed(s.fs, t.fs)
              && s.fs.inodes[s.fs.names[Final]].sealed
              && hash(s.fs.inodes[s.fs.names[Final]].bytes) == key.checksum
              && |s.fs.inodes[s.fs.names[Final]].bytes| == key.byteLength
  {
    InitialHolds(hash, key, payloads);
    RunKeeps(hash, key, Initial(payloads), events);
    RunFixesFinal(hash, key, Run(hash, key, Initial(payloads), events), more);
    RunConcat(hash, key, Initial(payloads), events, more);
  }

  /** At most one writer is ever told it stored the blob. */
  lemma AtMostOneStored(hash: Blob -> int, key: Key, payloads: seq<Blob>, events: seq<Event>, i: nat, j: nat)
    ensures var s := Run(hash, key, Initial(payloads), events);
            i < |s.writers| && j < |s.writers|
            && s.writers[i].pc == Finished(Stored) && s.writers[j].pc == Finished(Stored)
            ==> i == j
  {
    var s := Run(hash, key, Initial(payloads), events);
    InitialHolds(hash, key, payloads);
    RunKeeps(hash, key, Initial(payloads), events);
    if i < |s.writers| && j < |s.writers| && i != j {
      assert WriterInv(hash, key, s.fs, s.writers[i]) && WriterInv(hash, key, s.fs, s.writers[j]);
      ApartAll(s, i, j);
    }
  }

  /**
   Whoever holds a receipt, "stored" or "already present": the final file then has
   exactly one link and holds that writer's own bytes, and still does after any
   further activity.
   */
  lemma ReceiptsAreDurable(hash: Blob -> int, key: Key, payloads: seq<Blob>, events: seq<Event>, more: seq<Event>,
                           i: nat)
    requires Injective(hash)
    ensures var s, t := Run(hash, key, Initial(payloads), events), Run(hash, key, Initial(payloads), events + more);
            i < |s.writers| && (s.writers[i].pc == Finished(Stored) || s.writers[i].pc == Finished(AlreadyPresent)) ==>
              && Final in t.fs.names && t.fs.names[Final] < |t.fs.inodes|
              && t.fs.inodes[t.fs.names[Final]] == Inode(s.writers[i].payload, true, 1)
  {
    var s := Run(hash, key, Initial(payloads), events);
    InitialHolds(hash, key, payloads);
    RunKeeps(hash, key, Initial(payloads), events);
    RunKeeps(hash, key, s, more);
    RunFixesFinal(hash, key, s, more);
    RunConcat(hash, key, Initial(payloads), events, more);
    if i < |s.writers| && (s.writers[i].pc == Finished(Stored) || s.writers[i].pc == Finished(AlreadyPresent)) {
      assert WriterInv(hash, key, s.fs, s.writers[i]);
      var t := Run(hash, key, s, more);
      FinalHasALink(hash, key, t);
    }
  }

  lemma FinalHasALink(hash: Blob -> int, key: Key, s: State)
    requires Inv(hash, key, s) && Final in s.fs.names
    ensures 1 <= s.fs.inodes[s.fs.names[Final]].nlink <= 2
    ensures s.fs.inodes[s.fs.names[Final]].nlink == 2 <==>
              exists i :: 0 <= i < |s.writers| && s.writers[i].linked && s.writers[i].tmp.Some?
  {
    if !Single(s.fs) {
      var i :| 0 <= i < |s.writers| && s.writers[i].linked && s.writers[i].tmp.Some?;
      assert WriterInv(hash, key, s.fs, s.writers[i]);
    } else if i :| 0 <= i < |s.writers| && s.writers[i].linked && s.writers[i].tmp.Some? {
      assert WriterInv(hash, key, s.fs, s.writers[i]);
    }
  }

  lemma OwnStepLeavesNoName(hash: Blob -> int, key: Key, fs: Fs, w: Writer, n: nat)
    requires w.pc.Finished? ==> w.tmp.None?
    ensures var w' := Step(hash, key, fs, w, n).1; w'.pc.Finished? ==> w'.tmp.None?
  {
  }

  lemma StepLeavesNoName(hash: Blob -> int, key: Key, s: State, e: Event, i: nat)
    requires i < |s.writers| && (s.writers[i].pc.Finished? ==> s.writers[i].tmp.None?)
    ensures var w := Next(hash, key, s, e).writers[i];
            w.pc.Finished? && w.tmp.Some? ==> e == Fails(i) && s.writers[i].pc.Cleanup?
  {
    hide Step;
    if e.Moves? && e.writer == i {
      OwnStepLeavesNoName(hash, key, s.fs, s.writers[i], e.n);
    }
  }

  lemma SameWriters(hash: Blob -> int, key: Key, s: State, events: seq<Event>)
    ensures |Run(hash, key, s, events).writers| == |s.writers|
    decreases |events|
  {
    if events != [] { SameWriters(hash, key, Next(hash, key, s, events[0]), events[1..]); }
  }

  /** A writer that is done and still has its temporary name was interrupted in its cleanup. */
  lemma {:induction false} LeftBehindByAFailedCleanup(hash: Blob -> int, key: Key, payloads: seq<Blob>,
                                                      events: seq<Event>, i: nat) returns (k: nat)
    requires var s := Run(hash, key, Initial(payloads), events);
             i < |s.writers| && s.writers[i].pc.Finished? && s.writers[i].tmp.Some?
    ensures k < |events| && events[k] == Fails(i)
    ensures var before := Run(hash, key, Initial(payloads), events[..k]);
            i < |before.writers| && before.writers[i].pc.Cleanup?
  {
    SameWriters(hash, key, Initial(payloads), events);
    var last := |events| - 1;
    if events != [] {
      var init, e := events[..last], events[last];
      SameWriters(hash, key, Initial(payloads), init);
      assert events == init + [e];
      RunConcat(hash, key, Initial(payloads), init, [e]);
      var s := Run(hash, key, Initial(payloads), init);
      assert Run(hash, key, s, [e]) == Next(hash, key, s, e) by { assert [e][1..] == []; }
      hide Next, Run;
      if s.writers[i].pc.Finished? && s.writers[i].tmp.Some? {
        k := LeftBehindByAFailedCleanup(hash, key, payloads, init, i);
        assert init[..k] == events[..k];
      } else {
        StepLeavesNoName(hash, key, s, e, i);
        k := last;
      }
    }
  }

  /** When every writer is done and no cleanup failed, the directory holds the final name or nothing. */
  lemma NoTemporaryNameIsLeftBehind(hash: Blob -> int, key: Key, payloads: seq<Blob>, events: seq<Event>)
    ensures var s := Run(hash, key, Initial(payloads), events);
            (forall i | 0 <= i < |s.writers| :: s.writers[i].tmp.None?) ==> s.fs.names.Keys <= {Final}
    ensures var s := Run(hash, key, Initial(payloads), events);
            forall i | 0 <= i < |s.writers| :: s.writers[i].pc.Finished? && s.writers[i].tmp.Some? ==>
              s.writers[i].pc == Finished(Error)
  {
    InitialHolds(hash, key, payloads);
    RunKeeps(hash, key, Initial(payloads), events);
    var s := Run(hash, key, Initial(payloads), events);
    forall i | 0 <= i < |s.writers|
      ensures s.writers[i].pc.Finished? && s.writers[i].tmp.Some? ==> s.writers[i].pc == Finished(Error)
    {
      assert WriterInv(hash, key, s.fs, s.writers[i]);
    }
    if forall i | 0 <= i < |s.writers| :: s.writers[i].tmp.None? {
      forall name | name in s.fs.names.Keys ensures name == Final {
      }
    }
  }
}
