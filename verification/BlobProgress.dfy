/**
 What a publisher gets when nobody disturbs it (apps/worker/src/private-offer-blob-store.ts,
 `putIfAbsent`): from any reachable directory and for every way the kernel splits reads and
 writes, a writer that moves alone finishes, and its receipt says what it found.
 */
module BlobProgress {
  import opened Wrappers
  import opened BlobPublish

  type Kernel = nat -> nat

  /** k calls of one writer, with the kernel's choices from `at` on. */
  ghost function Alone(hash: Blob -> int, key: Key, fs: Fs, w: Writer, kernel: Kernel, at: nat, k: nat): (Fs, Writer)
    decreases k
  {
    if k == 0 then (fs, w)
    else
      var (fs', w') := Step(hash, key, fs, w, kernel(at));
      Alone(hash, key, fs', w', kernel, at + 1, k - 1)
  }

  lemma {:induction false} AloneThen(hash: Blob -> int, key: Key, fs: Fs, w: Writer, kernel: Kernel, at: nat, j: nat,
                                     k: nat)
    ensures var (fs', w') := Alone(hash, key, fs, w, kernel, at, j);
            Alone(hash, key, fs, w, kernel, at, j + k) == Alone(hash, key, fs', w', kernel, at + j, k)
    decreases j
  {
    hide Step;
    if j > 0 {
      var (fs', w') := Step(hash, key, fs, w, kernel(at));
      AloneThen(hash, key, fs', w', kernel, at + 1, j - 1, k);
    }
  }

  /** The final file as every reachable directory has it: sealed, complete and of the key. */
  ghost predicate Intact(hash: Blob -> int, key: Key, fs: Fs) {
    FinalInv(hash, key, fs) && Final in fs.names
  }

  // ----- Reading

  /** The read loop takes the whole file, however it is split. */
  lemma {:induction false} ReadsAll(hash: Blob -> int, key: Key, fs: Fs, w: Writer, kernel: Kernel, at: nat)
    returns (k: nat)
    requires w.pc.Read? && w.pc.handle < |fs.inodes|
    requires |fs.inodes[w.pc.handle].bytes| == key.byteLength && w.pc.got <= fs.inodes[w.pc.handle].bytes
    ensures var bytes := fs.inodes[w.pc.handle].bytes;
            Alone(hash, key, fs, w, kernel, at, k)
            == (fs, w.(pc := FstatAgain(w.pc.ctx, w.pc.seen, w.pc.handle, bytes)))
    decreases key.byteLength - |w.pc.got|
  {
    var bytes, got := fs.inodes[w.pc.handle].bytes, w.pc.got;
    var (fs', w') := Step(hash, key, fs, w, kernel(at));
    assert fs' == fs;
    if |got| == |bytes| {
      assert got == bytes;
      k := 1;
      assert Alone(hash, key, fs', w', kernel, at + 1, 0) == (fs', w');
    } else {
      OneRead(hash, key, fs, w, kernel(at));
      var rest := ReadsAll(hash, key, fs', w', kernel, at + 1);
      k := rest + 1;
    }
  }

  lemma OneRead(hash: Blob -> int, key: Key, fs: Fs, w: Writer, n: nat)
    requires w.pc.Read? && w.pc.handle < |fs.inodes|
    requires |fs.inodes[w.pc.handle].bytes| == key.byteLength && w.pc.got <= fs.inodes[w.pc.handle].bytes
    requires |w.pc.got| < key.byteLength
    ensures var (fs', w') := Step(hash, key, fs, w, n);
            && fs' == fs && w'.pc.Read? && w' == w.(pc := w'.pc)
            && w'.pc == Read(w.pc.ctx, w.pc.seen, w.pc.handle, w'.pc.got)
            && w'.pc.got <= fs.inodes[w.pc.handle].bytes && |w.pc.got| < |w'.pc.got| <= key.byteLength
  {
    var bytes, got := fs.inodes[w.pc.handle].bytes, w.pc.got;
    var moved := Moved(n, Min(key.byteLength + 1 - Min(|got|, key.byteLength + 1), |bytes| - |got|));
    assert 1 <= moved <= |bytes| - |got|;
    assert got + bytes[|got|..|got| + moved] == bytes[..|got| + moved];
  }

  // ----- Verifying

  /** The steps of a verification around the read loop. */
  lemma VerifyBegins(hash: Blob -> int, key: Key, fs: Fs, w: Writer, kernel: Kernel, at: nat)
    requires Intact(hash, key, fs) && Single(fs) && w.pc.Lstat?
    ensures var d := fs.names[Final];
            Alone(hash, key, fs, w, kernel, at, 3) == (fs, w.(pc := Read(w.pc.ctx, d, d, [])))
  {
    var d, ctx := fs.names[Final], w.pc.ctx;
    assert Step(hash, key, fs, w, kernel(at)) == (fs, w.(pc := Open(ctx, d)));
    assert Step(hash, key, fs, w.(pc := Open(ctx, d)), kernel(at + 1)) == (fs, w.(pc := Fstat(ctx, d, d)));
    assert Step(hash, key, fs, w.(pc := Fstat(ctx, d, d)), kernel(at + 2)) == (fs, w.(pc := Read(ctx, d, d, [])));
    hide Step;
    ThreeSteps(hash, key, fs, w, kernel, at);
  }

  lemma ThreeSteps(hash: Blob -> int, key: Key, fs: Fs, w: Writer, kernel: Kernel, at: nat)
    ensures var (fs1, w1) := Step(hash, key, fs, w, kernel(at));
            var (fs2, w2) := Step(hash, key, fs1, w1, kernel(at + 1));
            Alone(hash, key, fs, w, kernel, at, 3) == Step(hash, key, fs2, w2, kernel(at + 2))
  {
    hide Step;
    var (fs1, w1) := Step(hash, key, fs, w, kernel(at));
    var (fs2, w2) := Step(hash, key, fs1, w1, kernel(at + 1));
    var (fs3, w3) := Step(hash, key, fs2, w2, kernel(at + 2));
    assert Alone(hash, key, fs3, w3, kernel, at + 3, 0) == (fs3, w3);
    assert Alone(hash, key, fs2, w2, kernel, at + 2, 1) == (fs3, w3);
    assert Alone(hash, key, fs1, w1, kernel, at + 1, 2) == (fs3, w3);
  }

  lemma TwoSteps(hash: Blob -> int, key: Key, fs: Fs, w: Writer, kernel: Kernel, at: nat)
    ensures var (fs1, w1) := Step(hash, key, fs, w, kernel(at));
            Alone(hash, key, fs, w, kernel, at, 2) == Step(hash, key, fs1, w1, kernel(at + 1))
  {
    hide Step;
    var (fs1, w1) := Step(hash, key, fs, w, kernel(at));
    var (fs2, w2) := Step(hash, key, fs1, w1, kernel(at + 1));
    assert Alone(hash, key, fs2, w2, kernel, at + 2, 0) == (fs2, w2);
    assert Alone(hash, key, fs1, w1, kernel, at + 1, 1) == (fs2, w2);
  }

  lemma VerifyEnds(hash: Blob -> int, key: Key, fs: Fs, w: Writer, kernel: Kernel, at: nat)
    requires Intact(hash, key, fs) && Single(fs)
    requires w.pc.FstatAgain? && w.pc.seen == w.pc.handle == fs.names[Final]
    requires w.pc.got == fs.inodes[fs.names[Final]].bytes
    ensures Alone(hash, key, fs, w, kernel, at, 2) == (fs, Leave(w, if w.pc.ctx.Own? then Stored else AlreadyPresent))
  {
    var w1 := w.(pc := LstatAgain(w.pc.ctx, w.pc.seen));
    assert Step(hash, key, fs, w, kernel(at)) == (fs, w1);
    assert Step(hash, key, fs, w1, kernel(at + 1)) == (fs, Leave(w, if w.pc.ctx.Own? then Stored else AlreadyPresent));
    hide Step;
    TwoSteps(hash, key, fs, w, kernel, at);
  }

  /** A verification that is not disturbed accepts the file. */
  lemma Verifies(hash: Blob -> int, key: Key, fs: Fs, w: Writer, kernel: Kernel, at: nat) returns (k: nat)
    requires Intact(hash, key, fs) && Single(fs) && w.pc.Lstat?
    ensures Alone(hash, key, fs, w, kernel, at, k) == (fs, Leave(w, if w.pc.ctx.Own? then Stored else AlreadyPresent))
  {
    var d := fs.names[Final];
    var w1 := w.(pc := Read(w.pc.ctx, d, d, []));
    var w2 := w.(pc := FstatAgain(w.pc.ctx, d, d, fs.inodes[d].bytes));
    assert |fs.inodes[d].bytes| == key.byteLength;
    hide Alone, Leave, Step, Intact, FinalInv, Single;
    VerifyBegins(hash, key, fs, w, kernel, at);
    var taken := ReadsAll(hash, key, fs, w1, kernel, at + 3);
    Chained(hash, key, fs, w, kernel, at, 3, fs, w1, taken, fs, w2);
    VerifyEnds(hash, key, fs, w2, kernel, at + 3 + taken);
    k := 3 + taken + 2;
    Chained(hash, key, fs, w, kernel, at, 3 + taken, fs, w2, 2, fs,
            Leave(w2, if w.pc.ctx.Own? then Stored else AlreadyPresent));
    LeavesAlike(w, w2.pc, if w.pc.ctx.Own? then Stored else AlreadyPresent);
  }

  lemma LeavesAlike(w: Writer, pc: Pc, outcome: Outcome)
    ensures Leave(w.(pc := pc), outcome) == Leave(w, outcome)
  {
  }

  lemma Chained(hash: Blob -> int, key: Key, fs: Fs, w: Writer, kernel: Kernel, at: nat, j: nat, fs1: Fs, w1: Writer,
                k: nat, fs2: Fs, w2: Writer)
    requires Alone(hash, key, fs, w, kernel, at, j) == (fs1, w1)
    requires Alone(hash, key, fs1, w1, kernel, at + j, k) == (fs2, w2)
    ensures Alone(hash, key, fs, w, kernel, at, j + k) == (fs2, w2)
  {
    hide Alone;
    AloneThen(hash, key, fs, w, kernel, at, j, k);
  }

  // ----- Writing

  ghost function WithBytes(fs: Fs, ino: Ino, bytes: Blob): Fs
    requires ino < |fs.inodes|
  {
    fs.(inodes := fs.inodes[ino := fs.inodes[ino].(bytes := bytes)])
  }

  /** The write loop writes the whole payload, however it is split. */
  lemma {:induction false} FillsAll(hash: Blob -> int, key: Key, fs: Fs, w: Writer, kernel: Kernel, at: nat)
    returns (k: nat)
    requires w.pc.Fill? && w.ino < |fs.inodes| && w.pc.offset <= |w.payload|
    requires fs.inodes[w.ino].bytes == w.payload[..w.pc.offset]
    ensures Alone(hash, key, fs, w, kernel, at, k) == (WithBytes(fs, w.ino, w.payload), w.(pc := Seal))
    decreases |w.payload| - w.pc.offset
  {
    var (fs', w') := Step(hash, key, fs, w, kernel(at));
    var offset := w.pc.offset;
    if offset == |w.payload| {
      assert w.payload[..offset] == w.payload;
      assert WithBytes(fs, w.ino, w.payload) == fs;
      k := 1;
      assert Alone(hash, key, fs', w', kernel, at + 1, 0) == (fs', w');
    } else {
      OneWrite(hash, key, fs, w, kernel(at));
      var rest := FillsAll(hash, key, fs', w', kernel, at + 1);
      assert WithBytes(fs', w.ino, w.payload) == WithBytes(fs, w.ino, w.payload);
      k := rest + 1;
    }
  }

  lemma OneWrite(hash: Blob -> int, key: Key, fs: Fs, w: Writer, n: nat)
    requires w.pc.Fill? && w.ino < |fs.inodes| && w.pc.offset < |w.payload|
    requires fs.inodes[w.ino].bytes == w.payload[..w.pc.offset]
    ensures var (fs', w') := Step(hash, key, fs, w, n);
            && w'.pc.Fill? && w' == w.(pc := w'.pc) && w.pc.offset < w'.pc.offset <= |w.payload|
            && fs' == WithBytes(fs, w.ino, w.payload[..w'.pc.offset])
  {
    var moved := Moved(n, |w.payload| - w.pc.offset);
    assert fs.inodes[w.ino].bytes[..w.pc.offset] == w.payload[..w.pc.offset];
    assert w.payload[..w.pc.offset] + w.payload[w.pc.offset..w.pc.offset + moved] == w.payload[..w.pc.offset + moved];
  }

  /** Sealing, checking and linking the filled file, and dropping its temporary name. */
  lemma Links(hash: Blob -> int, key: Key, fs: Fs, w: Writer, kernel: Kernel, at: nat, t: nat)
    requires w.pc.Seal? && w.tmp == Some(t) && w.ino < |fs.inodes| && |w.payload| == key.byteLength
    requires fs.inodes[w.ino] == Inode(w.payload, false, 1)
    requires Temp(t) in fs.names && fs.names[Temp(t)] == w.ino && Final !in fs.names
    ensures Alone(hash, key, fs, w, kernel, at, 4)
            == (Fs((fs.names - {Temp(t)})[Final := w.ino], fs.inodes[w.ino := Inode(w.payload, true, 1)]),
                w.(pc := Lstat(Own), tmp := None, linked := true))
  {
    var sealed := fs.(inodes := fs.inodes[w.ino := Inode(w.payload, true, 1)]);
    var linked := Fs(fs.names[Final := w.ino], fs.inodes[w.ino := Inode(w.payload, true, 2)]);
    var done := Fs((fs.names - {Temp(t)})[Final := w.ino], fs.inodes[w.ino := Inode(w.payload, true, 1)]);
    var w1, w2 := w.(pc := CheckSealed), w.(pc := BlobPublish.Link);
    var w3, w4 := w.(pc := UnlinkTemp, linked := true), w.(pc := Lstat(Own), tmp := None, linked := true);
    assert Step(hash, key, fs, w, kernel(at)) == (sealed, w1);
    assert Step(hash, key, sealed, w1, kernel(at + 1)) == (sealed, w2);
    assert sealed.inodes[w.ino := Inode(w.payload, true, 2)] == linked.inodes;
    assert Step(hash, key, sealed, w2, kernel(at + 2)) == (linked, w3);
    assert linked.inodes[w.ino := Inode(w.payload, true, 1)] == done.inodes;
    assert Unlinked(linked, t) == done by {
      assert (map name | name in linked.names && name != Temp(t) :: linked.names[name]) == done.names;
    }
    assert Step(hash, key, linked, w3, kernel(at + 3)) == (done, w4);
    hide Step, Unlinked;
    ThreeSteps(hash, key, fs, w, kernel, at);
    AloneThen(hash, key, fs, w, kernel, at, 3, 1);
    assert Alone(hash, key, done, w4, kernel, at + 4, 0) == (done, w4);
  }

  /** A new temporary file with the whole payload. */
  lemma Fills(hash: Blob -> int, key: Key, fs: Fs, w: Writer, kernel: Kernel, at: nat) returns (k: nat)
    requires w.pc.OpenTemp? && Temp(kernel(at)) !in fs.names
    ensures Alone(hash, key, fs, w, kernel, at, k)
            == (Fs(fs.names[Temp(kernel(at)) := |fs.inodes|], fs.inodes + [Inode(w.payload, false, 1)]),
                w.(pc := Seal, tmp := Some(kernel(at)), ino := |fs.inodes|))
  {
    var t, ino := kernel(at), |fs.inodes|;
    var created := Fs(fs.names[Temp(t) := ino], fs.inodes + [Inode([], false, 1)]);
    var w1 := w.(pc := Fill(0), tmp := Some(t), ino := ino);
    assert Step(hash, key, fs, w, t) == (created, w1);
    var rest := FillsAll(hash, key, created, w1, kernel, at + 1);
    assert WithBytes(created, ino, w.payload).inodes == fs.inodes + [Inode(w.payload, false, 1)];
    k := rest + 1;
  }

  /** From an empty place: the payload is published under the final name alone. */
  lemma Publishes(hash: Blob -> int, key: Key, fs: Fs, w: Writer, kernel: Kernel, at: nat) returns (k: nat)
    requires Good(hash, key, w.payload) && w.pc.OpenTemp? && w.tmp.None? && !w.linked
    requires Final !in fs.names && Temp(kernel(at)) !in fs.names
    ensures var (fs', w') := Alone(hash, key, fs, w, kernel, at, k);
            && fs' == Fs(fs.names[Final := |fs.inodes|], fs.inodes + [Inode(w.payload, true, 1)])
            && w'.pc == Finished(Stored)
  {
    hide Step;
    var t, ino := kernel(at), |fs.inodes|;
    var filling := Fills(hash, key, fs, w, kernel, at);
    var filled := Fs(fs.names[Temp(t) := ino], fs.inodes + [Inode(w.payload, false, 1)]);
    var w2 := w.(pc := Seal, tmp := Some(t), ino := ino);
    Links(hash, key, filled, w2, kernel, at + filling, t);
    var done := Fs(fs.names[Final := ino], fs.inodes + [Inode(w.payload, true, 1)]);
    assert (filled.names - {Temp(t)})[Final := ino] == done.names;
    assert filled.inodes[ino := Inode(w.payload, true, 1)] == done.inodes;
    var w3 := w2.(pc := Lstat(Own), tmp := None, linked := true);
    assert Intact(hash, key, done) && Single(done);
    assert Leave(w3, Stored).pc == Finished(Stored);
    hide Alone, Leave, Intact, Single, Good;
    var verifying := Verifies(hash, key, done, w3, kernel, at + filling + 4);
    AloneThen(hash, key, fs, w, kernel, at, filling, 4);
    AloneThen(hash, key, fs, w, kernel, at, filling + 4, verifying);
    k := filling + 4 + verifying;
  }

  // ----- Losing the race

  /** `unlink` on the way out. */
  lemma CleansUp(hash: Blob -> int, key: Key, fs: Fs, w: Writer, kernel: Kernel, at: nat, result: Outcome)
    requires w.tmp.Some?
    ensures var (fs', w') := Alone(hash, key, fs, Leave(w, result), kernel, at, 1);
            fs' == Unlinked(fs, w.tmp.value) && w'.pc == Finished(result) && w'.tmp.None?
  {
    var (fs', w') := Step(hash, key, fs, Leave(w, result), kernel(at));
    hide Unlinked;
    assert Alone(hash, key, fs', w', kernel, at + 1, 0) == (fs', w');
  }

  /**
   A loser waits for the winner's second link to go: while it stays, the sixteen looks are used up and the loser
   leaves with an error; once it is gone the file is accepted. Either way its own temporary name is removed.
   */
  lemma {:induction false} Competes(hash: Blob -> int, key: Key, fs: Fs, w: Writer, kernel: Kernel, at: nat)
    returns (k: nat)
    requires Intact(hash, key, fs) && fs.inodes[fs.names[Final]].nlink in {1, 2}
    requires w.pc.Lstat? && w.pc.ctx.Competing? && w.pc.ctx.attempt < MAX_ATTEMPTS && w.tmp.Some?
    ensures var (fs', w') := Alone(hash, key, fs, w, kernel, at, k);
            && fs' == Unlinked(fs, w.tmp.value) && w'.tmp.None?
            && w'.pc == Finished(if Single(fs) then AlreadyPresent else Error)
    decreases MAX_ATTEMPTS - w.pc.ctx.attempt
  {
    if Single(fs) {
      k := Verifies(hash, key, fs, w, kernel, at);
      hide Step, Unlinked;
      AloneThen(hash, key, fs, w, kernel, at, k, 1);
      CleansUp(hash, key, fs, w, kernel, at + k, AlreadyPresent);
      k := k + 1;
    } else {
      var a := w.pc.ctx.attempt;
      var w1 := w.(pc := Recheck(a));
      assert Step(hash, key, fs, w, kernel(at)) == (fs, w1);
      var w2 := if a + 1 < MAX_ATTEMPTS then w.(pc := Lstat(Competing(a + 1))) else Leave(w, Error);
      assert Step(hash, key, fs, w1, kernel(at + 1)) == (fs, w2);
      hide Step, Unlinked;
      TwoSteps(hash, key, fs, w, kernel, at);
      if a + 1 < MAX_ATTEMPTS {
        var rest := Competes(hash, key, fs, w2, kernel, at + 2);
        AloneThen(hash, key, fs, w, kernel, at, 2, rest);
        k := 2 + rest;
      } else {
        CleansUp(hash, key, fs, w, kernel, at + 2, Error);
        AloneThen(hash, key, fs, w, kernel, at, 2, 1);
        k := 3;
      }
    }
  }

  // ----- The whole call

  /**
   From any reachable directory, a call that nobody disturbs finishes: it publishes its payload when the final name
   is free, accepts a final file with one link, and reports an error otherwise; an error and an acceptance leave
   the directory as it was.
   */
  lemma UndisturbedCallsFinish(hash: Blob -> int, key: Key, fs: Fs, payload: Blob, kernel: Kernel) returns (k: nat)
    requires FinalInv(hash, key, fs) && forall n :: Temp(kernel(n)) !in fs.names
    ensures var (fs', w') := Alone(hash, key, fs, Writer(payload, Start, None, 0, false), kernel, 0, k);
            if !(Good(hash, key, payload) && key.byteLength >= 1) then fs' == fs && w'.pc == Finished(Error)
            else if Final !in fs.names then
              && w'.pc == Finished(Stored)
              && fs' == Fs(fs.names[Final := |fs.inodes|], fs.inodes + [Inode(payload, true, 1)])
            else fs' == fs && w'.pc == Finished(if Single(fs) then AlreadyPresent else Error)
  {
    var w := Writer(payload, Start, None, 0, false);
    var w1 := w.(pc := Lstat(First));
    if !(Good(hash, key, payload) && key.byteLength >= 1) {
      var left := w.(pc := Finished(Error));
      assert Step(hash, key, fs, w, kernel(0)) == (fs, left);
      hide Step;
      assert Alone(hash, key, fs, left, kernel, 1, 0) == (fs, left);
      k := 1;
    } else {
      assert Step(hash, key, fs, w, kernel(0)) == (fs, w1);
      if Final in fs.names && Single(fs) {
        assert Leave(w1, AlreadyPresent).pc == Finished(AlreadyPresent);
        hide Step, Leave;
        var rest := Verifies(hash, key, fs, w1, kernel, 1);
        k := 1 + rest;
      } else {
        var w2 := if Final in fs.names then w.(pc := Finished(Error)) else w.(pc := OpenTemp);
        assert Step(hash, key, fs, w1, kernel(1)) == (fs, w2);
        hide Step, Single, Good;
        TwoSteps(hash, key, fs, w, kernel, 0);
        k := 2;
        if Final !in fs.names {
          var rest := Publishes(hash, key, fs, w2, kernel, 2);
          AloneThen(hash, key, fs, w, kernel, 0, 2, rest);
          k := 2 + rest;
        }
      }
    }
  }
}
