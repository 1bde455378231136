/**
  The file system as the backup and administration code see it: a mutable map from paths to bytes, any of whose
  operations may fail.  The fault oracle `fails` is an arbitrary function of the call number, so a theorem about
  a Disk holds for every pattern of faults.  Files are regular; `os.replace` either takes effect or raises.
*/
module Disk {
  import opened Wrappers

  type Byte = b: int | 0 <= b < 256
  type Bytes = seq<Byte>

  /** Temporary files carry names no other entry can have: mkstemp creates them exclusively. */
  datatype Path =
    | Entry(directory: string, name: string)
    | Temporary(directory: string, serial: nat)

  type Files = map<Path, Bytes>

  /** The effect of `os.replace`; without a source it changes nothing. */
  function Moved(files: Files, source: Path, destination: Path): Files {
    if source !in files then files else
    map p | p in files.Keys + {destination} && (p != source || p == destination) ::
      if p == destination then files[source] else files[p]
  }

  function Without(files: Files, path: Path): Files {
    map p | p in files && p != path :: files[p]
  }

  predicate Same(a: Files, b: Files, p: Path) {
    (p in a <==> p in b) && (p in a ==> a[p] == b[p])
  }

  /** Nothing but temporary files numbered from `serial` on differs. */
  ghost predicate OnlyScratch(before: Files, after: Files, serial: nat) {
    forall p: Path :: (p.Entry? || p.serial < serial) ==> Same(before, after, p)
  }

  /** Every file there was is still there, as it was, but for the paths in `but`. */
  ghost predicate Kept(before: Files, after: Files, but: set<Path>) {
    forall p :: p in before && p !in but ==> p in after && after[p] == before[p]
  }

  /** How many of the first n calls fail. */
  function Faults(fails: nat -> bool, n: nat): nat {
    if n == 0 then 0 else Faults(fails, n - 1) + if fails(n - 1) then 1 else 0
  }

  /** The count stands still over a stretch of calls exactly when none of them fails. */
  lemma {:induction false} NoFaultsIff(fails: nat -> bool, m: nat, n: nat)
    requires m <= n
    ensures Faults(fails, m) <= Faults(fails, n)
    ensures Faults(fails, m) == Faults(fails, n) <==> forall k: nat :: m <= k < n ==> !fails(k)
  {
    if m == n {
    } else {
      NoFaultsIff(fails, m, n - 1);
    }
  }

  /** It grows by two only over two failing calls. */
  lemma {:induction false} TwoFaults(fails: nat -> bool, m: nat, n: nat) returns (i: nat, j: nat)
    requires m <= n && Faults(fails, m) + 2 <= Faults(fails, n)
    ensures m <= i < j < n && fails(i) && fails(j)
  {
    j := n - 1;
    if m == n {
      assert false;
    } else if !fails(n - 1) {
      i, j := TwoFaults(fails, m, n - 1);
    } else {
      NoFaultsIff(fails, m, n - 1);
      i :| m <= i < n - 1 && fails(i);
    }
  }

  datatype Creation = Created | Exists | NotCreated

  class Disk {
    const fails: nat -> bool
    var files: Files
    var calls: nat
    var serial: nat               // the next temporary name
    ghost var trace: seq<Files>   // the contents after each change
    ghost var faults: nat         // how many calls have failed

    ghost predicate Valid()
      reads this
    {
      && faults == Faults(fails, calls)
      && forall p: Path :: p in files && p.Temporary? ==> p.serial < serial
    }

    /** No call has failed since. */
    twostate predicate NoFaults()
      reads this
    {
      faults == old(faults)
    }

    twostate predicate OneFault()
      reads this
    {
      faults <= old(faults) + 1
    }

    /** One call has been made, and went as `ok` tells. */
    twostate predicate Called(ok: bool)
      reads this
    {
      && calls == old(calls) + 1
      && (ok <==> !fails(old(calls)))
      && faults == old(faults) + (if ok then 0 else 1)
    }

    constructor (files: Files, serial: nat, fails: nat -> bool)
      requires forall p: Path :: p in files && p.Temporary? ==> p.serial < serial
      ensures Valid() && this.files == files && this.serial == serial && this.fails == fails && trace == [files]
    {
      this.files, this.serial, this.fails, calls, trace, faults := files, serial, fails, 0, [files], 0;
    }

    /** What every operation does besides changing the files. */
    twostate predicate Ticked()
      reads this
    {
      && calls == old(calls) + 1
      && faults == old(faults) + (if fails(old(calls)) then 1 else 0)
      && serial == old(serial)
      && trace == old(trace) + [files]
    }

    method Count()
      modifies this`calls, this`trace, this`faults
      requires faults == Faults(fails, calls)
      ensures calls == old(calls) + 1 && trace == old(trace) + [files] && faults == Faults(fails, calls)
      ensures faults == old(faults) + (if fails(old(calls)) then 1 else 0)
    {
      faults := faults + if fails(calls) then 1 else 0;
      calls := calls + 1;
      trace := trace + [files];
    }

    method Replace(source: Path, destination: Path) returns (ok: bool)
      requires Valid() && (destination.Temporary? ==> destination.serial < serial)
      modifies this
      ensures Valid() && Ticked()
      ensures ok <==> !fails(old(calls)) && source in old(files)
      ensures files == if ok then Moved(old(files), source, destination) else old(files)
    {
      ok := !fails(calls) && source in files;
      if ok { files := Moved(files, source, destination); }
      Count();
    }

    method Unlink(path: Path, missingOk: bool) returns (ok: bool)
      requires Valid()
      modifies this
      ensures Valid() && Ticked()
      ensures ok <==> !fails(old(calls)) && (missingOk || path in old(files))
      ensures files == if ok then Without(old(files), path) else old(files)
    {
      ok := !fails(calls) && (missingOk || path in files);
      if ok { files := Without(files, path); }
      Count();
    }

    /** A call that only may fail: fsync, chmod, stat, opening an existing file. */
    method Consult() returns (ok: bool)
      requires Valid()
      modifies this
      ensures Valid() && Ticked() && files == old(files)
      ensures ok <==> !fails(old(calls))
    {
      ok := !fails(calls);
      Count();
    }

    /**
      mkstemp, write, fsync, chmod.  A failure after mkstemp removes the file again, unless that fails too and
      the file stays behind.
    */
    method CreateTemporary(directory: string, content: Bytes) returns (created: Option<Path>)
      requires Valid()
      modifies this
      ensures Valid() && serial == old(serial) + 1 && calls > old(calls)
      ensures OnlyScratch(old(files), files, old(serial))
      ensures created.Some? ==>
        && created.value == Temporary(directory, old(serial))
        && files == old(files)[created.value := content]
      ensures Extends(old(trace), trace, old(files), old(serial))
      ensures |trace| > 0 && trace[|trace| - 1] == files
      ensures faults >= old(faults) && (created.Some? <==> NoFaults())
      ensures created.None? && OneFault() ==> files == old(files)
    {
      var path := Temporary(directory, serial);
      serial := serial + 1;
      var ok := Consult();
      if !ok { return None; }
      files := files[path := content];
      ok := Consult();
      if ok { return Some(path); }
      ok := Unlink(path, true);
      return None;
    }

    /** Another process replaces a file. */
    method WrittenByOthers(path: Path, content: Bytes)
      requires Valid() && path.Entry?
      modifies this`files, this`trace
      ensures Valid() && files == old(files)[path := content] && trace == old(trace) + [files]
    {
      files := files[path := content];
      trace := trace + [files];
    }

    /** Opening with O_EXCL, write, fsync.  A failure after the open removes the file again, if that succeeds. */
    method CreateExclusive(path: Path, content: Bytes) returns (outcome: Creation)
      requires Valid() && path.Entry?
      modifies this
      ensures Valid() && serial == old(serial)
      ensures outcome == Exists ==> path in old(files)
      ensures path in old(files) ==> outcome != Created && files == old(files)
      ensures outcome == Created ==> files == old(files)[path := content]
      ensures outcome != Created ==> files == old(files) || files == old(files)[path := content]
      ensures old(trace) < trace && trace[|trace| - 1] == files
      ensures forall i :: |old(trace)| <= i < |trace| ==> Kept(old(files), trace[i], {})
      ensures faults >= old(faults) && (outcome != NotCreated <==> NoFaults())
      ensures outcome != Created && OneFault() ==> files == old(files)
    {
      var ok := Consult();
      if !ok { return NotCreated; }
      if path in files { return Exists; }
      files := files[path := content];
      ok := Consult();
      if ok { return Created; }
      ok := Unlink(path, true);
      assert !ok || files == old(files);
      return NotCreated;
    }
  }

  /** The trace has grown by states that differ from `before` in fresh temporary files only. */
  ghost predicate Extends(old_trace: seq<Files>, trace: seq<Files>, before: Files, serial: nat) {
    && old_trace <= trace
    && forall i :: |old_trace| <= i < |trace| ==> OnlyScratch(before, trace[i], serial)
  }
}
