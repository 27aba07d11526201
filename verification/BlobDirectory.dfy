/**
 One uncontended `putIfAbsent`, as the imperative code it is: the write-offset
 loop, the read-total loop and the cleanup, on a directory changed in place.
 `BlobPublish` has the same calls as single steps that other writers may interleave.
 */
module BlobDirectory {
  import opened BlobPublish

  class Directory {
    var names: map<Name, Ino>
    var inodes: seq<Inode>

    function Snapshot(): Fs
      reads this
    {
      Fs(names, inodes)
    }

    ghost predicate Valid()
      reads this
    {
      forall name | name in names :: names[name] < |inodes|
    }

    constructor ()
      ensures Valid() && Snapshot() == Fs(map[], [])
    {
      names, inodes := map[], [];
    }

    /** The final file is one this key's `verifyExisting` accepts. */
    ghost predicate Verifies(hash: Blob -> int, key: Key)
      requires Valid() && Final in names
      reads this
    {
      var i := inodes[names[Final]];
      i.sealed && i.nlink == 1 && |i.bytes| == key.byteLength && hash(i.bytes) == key.checksum
    }

    /** `verifyExisting` with the final name present; `kernel` picks how much each read returns. */
    method VerifyExisting(hash: Blob -> int, key: Key, kernel: nat -> nat) returns (ok: bool)
      requires Valid() && Final in names
      ensures ok <==> Verifies(hash, key)
    {
      var handle := names[Final];
      if !inodes[handle].sealed || inodes[handle].nlink != 1 || |inodes[handle].bytes| != key.byteLength {
        return false;
      }
      var bytes := inodes[handle].bytes;
      var got: Blob := [];
      while |got| < |bytes|
        invariant |got| <= |bytes| && got == bytes[..|got|]
        decreases |bytes| - |got|
      {
        var moved := Moved(kernel(|got|), |bytes| - |got|);
        got := got + bytes[|got|..|got| + moved];
        if |got| > key.byteLength {
          return false;
        }
      }
      assert got == bytes;
      return hash(got) == key.checksum;
    }

    /** Fills the temporary inode, however the kernel splits the writes. */
    method Fill(payload: Blob, ino: Ino, kernel: nat -> nat)
      requires Valid() && ino < |inodes| && inodes[ino] == Inode([], false, 1)
      modifies this`inodes
      ensures Valid() && inodes == old(inodes)[ino := Inode(payload, false, 1)]
    {
      var offset := 0;
      while offset < |payload|
        invariant offset <= |payload|
        invariant inodes == old(inodes)[ino := Inode(payload[..offset], false, 1)]
      {
        var moved := Moved(kernel(offset), |payload| - offset);
        var bytes := inodes[ino].bytes[..offset] + payload[offset..offset + moved];
        inodes := inodes[ino := inodes[ino].(bytes := bytes)];
        offset := offset + moved;
        assert bytes == payload[..offset];
      }
      assert payload[..offset] == payload;
    }

    /**
     The whole call without a competitor: an absent key ends up published under
     the final name alone, an intact published file is recognised, everything
     else is refused, and only the first case changes the directory.
     */
    method PutIfAbsent(hash: Blob -> int, key: Key, payload: Blob, t: nat, kernel: nat -> nat) returns (r: Outcome)
      requires Valid()
      modifies this
      ensures Valid()
      ensures var valid := hash(payload) == key.checksum && |payload| == key.byteLength && key.byteLength >= 1;
              if !valid then r == Error && Snapshot() == old(Snapshot())
              else if Final in old(names) then
                r == (if old(Verifies(hash, key)) then AlreadyPresent else Error) && Snapshot() == old(Snapshot())
              else if Temp(t) in old(names) then r == Error && Snapshot() == old(Snapshot())
              else
                && r == Stored
                && names == old(names)[Final := |old(inodes)|]
                && inodes == old(inodes) + [Inode(payload, true, 1)]
    {
      if hash(payload) != key.checksum || |payload| != key.byteLength || key.byteLength < 1 {
        return Error;
      }
      if Final in names {
        var ok := VerifyExisting(hash, key, kernel);
        return if ok then AlreadyPresent else Error;
      }
      if Temp(t) in names {
        return Error;
      }
      var ino := |inodes|;
      names, inodes := names[Temp(t) := ino], inodes + [Inode([], false, 1)];
      Fill(payload, ino, kernel);
      inodes := inodes[ino := inodes[ino].(sealed := true)];
      names, inodes := names[Final := names[Temp(t)]], inodes[ino := inodes[ino].(nlink := 2)];
      names := map name | name in names && name != Temp(t) :: names[name];
      inodes := inodes[ino := inodes[ino].(nlink := 1)];
      assert names == old(names)[Final := ino];
      assert inodes == old(inodes) + [Inode(payload, true, 1)];
      var stored := VerifyExisting(hash, key, kernel);
      return if stored then Stored else Error;
    }
  }
}
