/** The watchdog's file repair: what one pass establishes, and what any number of cut-off passes can leave. */
module SelfHeal {
  import opened Common

  type Path = string
  type Files = map<Path, Bytes>

  /** A primary file and the backup it is restored from. */
  datatype Pair = Pair(primary: Path, backup: Path)

  // driverPathPrimary, programDataPath\bin and restorePath, split where their spellings part.
  const WINDOWS: Path := "C:\\Windows\\"
  const DRIVER_PRIMARY: Path := WINDOWS + "System32\\drivers\\lockguard.sys"
  const SERVICE_PRIMARY: Path := "C:\\ProgramData\\Lockguard\\bin\\" + "lockguard-svc.exe"
  const DRIVER_BACKUP: Path := WINDOWS + "Lockguard-Restore\\" + "lockguard.sys"
  const SERVICE_BACKUP: Path := WINDOWS + "Lockguard-Restore\\" + "lockguard-svc.exe"

  const PAIRS: seq<Pair> := [Pair(DRIVER_PRIMARY, DRIVER_BACKUP), Pair(SERVICE_PRIMARY, SERVICE_BACKUP)]

  /** How one file operation ends. `kept` says how much of a write, or whether a rename, took effect before the end. */
  datatype Fate = Works | Fails(kept: nat) | Crashes(kept: nat)

  /** How a repair step ends; after a crash nothing else of the pass runs. */
  datatype Io = Fine | Error | Crash

  predicate Clean(fate: Fate) { fate.Works? }

  /** Takes effect, and nothing after it does. */
  predicate CutShort(fate: Fate) { fate.Crashes? && fate.kept > 0 }

  // Buffer size of io.Copy.
  const CHUNK: nat := 32768

  function Stage(dst: Path): Path {
    dst + ".new"
  }

  function Outcome(fate: Fate): Io {
    match fate case Works => Fine case Fails(_) => Error case Crashes(_) => Crash
  }

  /** The disk, the number of operations that changed it, and the files this pass could not read though they exist. */
  class Disk {
    var files: Files
    var step: nat
    var writes: nat
    ghost var unread: set<Path>

    constructor (files: Files)
      ensures this.files == files && writes == 0
    {
      this.files, step, writes, unread := files, 0, 0, {};
    }

    method Draw(fates: nat -> Fate) returns (fate: Fate)
      modifies this`step
      ensures fate == fates(old(step)) && step == old(step) + 1
    {
      fate := fates(step);
      step := step + 1;
    }

    /** os.Create: empty the file, making it if need be. */
    method Create(path: Path, fates: nat -> Fate) returns (r: Io)
      modifies this`files, this`step, this`writes
      ensures r == Fine ==> files == old(files)[path := []]
      ensures r == Error ==> files == old(files)
      ensures files == old(files) || files == old(files)[path := []]
      ensures CutShort(fates(old(step))) ==> r == Crash && files == old(files)[path := []]
      ensures r == Outcome(fates(old(step))) && step == old(step) + 1
      ensures (forall k :: Clean(fates(k))) ==> r == Fine
    {
      var fate := Draw(fates);
      if fate.Works? || (fate.Crashes? && fate.kept > 0) {
        files := files[path := []];
        writes := writes + 1;
      }
      return Outcome(fate);
    }

    /** One write to an open file: all of `data`, or a front part of it before a failure or crash. */
    method Append(path: Path, data: Bytes, fates: nat -> Fate) returns (r: Io, n: nat)
      requires path in files
      modifies this`files, this`step, this`writes
      ensures r == Outcome(fates(old(step))) && step == old(step) + 1
      ensures n <= |data| && files == old(files)[path := old(files)[path] + data[..n]]
      ensures r == Fine ==> n == |data|
      ensures (forall k :: Clean(fates(k))) ==> r == Fine
    {
      var fate := Draw(fates);
      n := if fate.Works? || fate.kept > |data| then |data| else fate.kept;
      files := files[path := files[path] + data[..n]];
      writes := writes + 1;
      r := Outcome(fate);
    }

    /** os.Rename over an existing file: atomic. */
    method Rename(src: Path, dst: Path, fates: nat -> Fate) returns (r: Io)
      requires src in files && src != dst
      modifies this`files, this`step, this`writes
      ensures r == Outcome(fates(old(step))) && step == old(step) + 1
      ensures r == Fine ==> files == (old(files) - {src})[dst := old(files)[src]]
      ensures r == Error ==> files == old(files)
      ensures files == old(files) || files == (old(files) - {src})[dst := old(files)[src]]
      ensures (forall k :: Clean(fates(k))) ==> r == Fine
    {
      var fate := Draw(fates);
      if fate.Works? || (fate.Crashes? && fate.kept > 0) {
        files := (files - {src})[dst := files[src]];
        writes := writes + 1;
      }
      return Outcome(fate);
    }
  }

  // -------- the helpers --------

  /** `now` is `before` with `dst` replaced by a front part of `data`, or untouched. */
  ghost predicate PartlyCopied(before: Files, now: Files, data: Bytes, dst: Path) {
    now == before || exists n :: 0 <= n <= |data| && now == before[dst := data[..n]]
  }

  method FileHash(disk: Disk, hash: Bytes -> Bytes, path: Path, fates: nat -> Fate) returns (r: Io, h: Bytes)
    modifies disk`step, disk`unread
    ensures disk.step == old(disk.step) + 1
    ensures r == Fine <==> fates(old(disk.step)).Works? && path in disk.files
    ensures r == Fine ==> h == hash(disk.files[path])
    ensures r == Crash <==> fates(old(disk.step)).Crashes?
    ensures disk.unread == old(disk.unread) + if r == Error && path in disk.files then {path} else {}
    ensures (forall k :: Clean(fates(k))) ==> r != Crash && (r == Fine <==> path in disk.files)
  {
    var fate := disk.Draw(fates);
    if fate.Fails? && path in disk.files { disk.unread := disk.unread + {path}; }
    if !fate.Works? { return Outcome(fate), []; }
    if path !in disk.files { return Error, []; }
    return Fine, hash(disk.files[path]);
  }

  lemma OneMoreChunk(data: Bytes, done: nat, n: nat, kept: nat)
    requires kept <= n && done + n <= |data|
    ensures data[..done] + data[done..done + n][..kept] == data[..done + kept]
  {
  }

  /** Operations from `from` on were made up to `to`, the last of which failed or crashed as `r` says. */
  predicate Stopped(fates: nat -> Fate, r: Io, from: nat, to: nat) {
    from < to && r == Outcome(fates(to - 1)) && r != Fine
  }

  /** io.Copy into an emptied file: the first `done` bytes arrive. */
  method CopyData(disk: Disk, data: Bytes, dst: Path, fates: nat -> Fate) returns (r: Io, ghost done: nat)
    requires dst in disk.files && disk.files[dst] == data[..0]
    modifies disk`files, disk`step, disk`writes
    ensures done <= |data| && disk.files == old(disk.files)[dst := data[..done]]
    ensures r == Fine ==> done == |data|
    ensures disk.step >= old(disk.step) && (r != Fine ==> Stopped(fates, r, old(disk.step), disk.step))
    ensures (forall k :: Clean(fates(k))) ==> r == Fine
  {
    r, done := Fine, 0;
    var at := 0;
    while at < |data|
      invariant disk.step >= old(disk.step)
      invariant done == at <= |data| && r == Fine && disk.files == old(disk.files)[dst := data[..at]]
    {
      var n := if |data| - at < CHUNK then |data| - at else CHUNK;
      var kept;
      r, kept := disk.Append(dst, data[at..at + n], fates);
      OneMoreChunk(data, at, n, kept);
      done := at + kept;
      if r != Fine { return; }
      at := at + n;
    }
  }

  /** The copy that starts at `step` gets as far as emptying its target. */
  predicate CutAtCreate(fates: nat -> Fate, step: nat) {
    fates(step).Works? && fates(step + 1).Works? && CutShort(fates(step + 2))
  }

  /** copyFile. A file copied onto itself ends up empty: its target is emptied before it is read. */
  method CopyFile(disk: Disk, src: Path, dst: Path, fates: nat -> Fate) returns (r: Io)
    modifies disk`files, disk`step, disk`writes
    ensures r == Fine ==> src in old(disk.files) && disk.files == old(disk.files)[dst := if src == dst then [] else old(disk.files)[src]]
    ensures src !in old(disk.files) ==> disk.files == old(disk.files)
    ensures disk.step >= old(disk.step)
    ensures r != Fine ==> Stopped(fates, r, old(disk.step), disk.step) || (src !in old(disk.files) && r == Error)
    ensures src in old(disk.files) ==> PartlyCopied(old(disk.files), disk.files, old(disk.files)[src], dst)
    ensures (forall k :: Clean(fates(k))) && src in old(disk.files) ==> r == Fine
    ensures src in old(disk.files) && CutAtCreate(fates, old(disk.step)) ==> r == Crash && disk.files == old(disk.files)[dst := []]
  {
    var fate := disk.Draw(fates);  // open the source
    if !fate.Works? { return Outcome(fate); }
    if src !in disk.files { return Error; }
    fate := disk.Draw(fates);      // make the target's directory
    if !fate.Works? { return Outcome(fate); }
    ghost var before := disk.files[src];
    assert before[..0] == [] && before[..|before|] == before;
    r := disk.Create(dst, fates);
    if r != Fine { return; }
    var data := disk.files[src];
    assert data[..0] == [] && data[..|data|] == data;
    ghost var n;
    r, n := CopyData(disk, data, dst, fates);
  }

  /** Whatever happens on the way, the target is wholly what it was or wholly the source. */
  method AtomicReplace(disk: Disk, src: Path, dst: Path, fates: nat -> Fate) returns (r: Io)
    requires src != Stage(dst)
    modifies disk`files, disk`step, disk`writes
    ensures r == Fine ==> src in old(disk.files) && disk.files == (old(disk.files) - {Stage(dst)})[dst := old(disk.files)[src]]
    ensures SameAt(old(disk.files), disk.files, dst) || (src in old(disk.files) && dst in disk.files && disk.files[dst] == old(disk.files)[src])
    ensures r == Error ==> SameAt(old(disk.files), disk.files, dst)
    ensures disk.step >= old(disk.step)
    ensures r != Fine ==> Stopped(fates, r, old(disk.step), disk.step) || (src !in old(disk.files) && r == Error)
    ensures forall p :: p != dst && p != Stage(dst) ==> SameAt(old(disk.files), disk.files, p)
    ensures (forall k :: Clean(fates(k))) && src in old(disk.files) ==> r == Fine
  {
    var stage := Stage(dst);
    assert stage[|dst|..] == ".new" && stage != dst;
    r := CopyFile(disk, src, stage, fates);
    if r != Fine { return; }
    r := disk.Rename(stage, dst, fates);
  }

  predicate SameAt(a: Files, b: Files, p: Path) {
    (p in a <==> p in b) && (p in a ==> a[p] == b[p])
  }

  // -------- one pass --------

  /** No pair writes where another pair reads or writes: holds of the two pairs of the source. */
  ghost predicate Separate(pairs: seq<Pair>) {
    && (forall i, j :: 0 <= i < |pairs| && 0 <= j < |pairs| ==>
          pairs[i].backup != pairs[j].primary && pairs[i].backup != Stage(pairs[j].primary) && pairs[i].primary != Stage(pairs[j].primary))
    && (forall i, j :: 0 <= i < j < |pairs| ==> pairs[i].primary != pairs[j].primary)
  }

  predicate Written(pairs: seq<Pair>, p: Path) {
    exists i :: 0 <= i < |pairs| && (p == pairs[i].primary || p == Stage(pairs[i].primary))
  }

  /** A pass, cut off or not, touches nothing but primaries and their stages. */
  ghost predicate Framed(pairs: seq<Pair>, before: Files, now: Files) {
    forall p :: !Written(pairs, p) ==> SameAt(before, now, p)
  }

  /** A primary a pass leaves behind is the old one, or some front part of its backup. */
  ghost predicate OldOrFromBackup(before: Files, now: Files, pair: Pair) {
    || SameAt(before, now, pair.primary)
    || (&& pair.backup in before && pair.primary in now
        && exists n :: 0 <= n <= |before[pair.backup]| && now[pair.primary] == before[pair.backup][..n])
  }

  /** A primary that is wholly what it was or wholly its backup. */
  predicate OldOrBackup(before: Files, now: Files, pair: Pair) {
    || SameAt(before, now, pair.primary)
    || (pair.backup in before && pair.primary in now && now[pair.primary] == before[pair.backup])
  }

  /** What a pass owes a primary that exists and that it could read. */
  predicate Whole(before: Files, now: Files, pair: Pair, unread: set<Path>) {
    pair.primary in before && pair.primary !in unread ==> OldOrBackup(before, now, pair)
  }

  /** Nothing to do for this pair: no backup, or a primary with the backup's hash. */
  predicate Settled(hash: Bytes -> Bytes, files: Files, pair: Pair) {
    pair.backup in files ==> pair.primary in files && hash(files[pair.primary]) == hash(files[pair.backup])
  }

  /** The primary cannot be read, its backup can, and the copy over the primary is cut off. */
  predicate CutInPlace(fates: nat -> Fate, step: nat) {
    fates(step).Fails? && fates(step + 1).Works? && CutAtCreate(fates, step + 2)
  }

  /** There is something to repair: a backup, and a primary that is missing, not readable, or of another hash. */
  predicate Needs(hash: Bytes -> Bytes, files: Files, pair: Pair, unread: set<Path>) {
    && pair.backup in files
    && (pair.primary !in files || pair.primary in unread || hash(files[pair.primary]) != hash(files[pair.backup]))
  }

  /** What a pair reported as fine is: settled, unless its backup could not be read. */
  predicate Done(hash: Bytes -> Bytes, files: Files, pair: Pair, unread: set<Path>) {
    Settled(hash, files, pair) || pair.backup in unread
  }

  method RepairPair(disk: Disk, hash: Bytes -> Bytes, pair: Pair, fates: nat -> Fate) returns (r: Io)
    requires pair.backup != pair.primary && pair.backup != Stage(pair.primary)
    modifies disk
    ensures forall p :: p != pair.primary && p != Stage(pair.primary) ==> SameAt(old(disk.files), disk.files, p)
    ensures OldOrFromBackup(old(disk.files), disk.files, pair)
    ensures Whole(old(disk.files), disk.files, pair, disk.unread)
    ensures old(disk.unread) <= disk.unread
    ensures r == Fine ==> Done(hash, disk.files, pair, disk.unread)
    ensures disk.step >= old(disk.step)
    ensures r != Fine ==> Stopped(fates, r, old(disk.step), disk.step)
    ensures r == Error ==> Needs(hash, old(disk.files), pair, disk.unread)
    ensures pair.backup in old(disk.files) && CutInPlace(fates, old(disk.step)) ==>
      r == Crash && disk.files == old(disk.files)[pair.primary := []]
    ensures (forall k :: Clean(fates(k))) ==> r == Fine && Settled(hash, disk.files, pair)
    ensures (forall k :: Clean(fates(k))) && old(Settled(hash, disk.files, pair)) ==>
      disk.files == old(disk.files) && disk.writes == old(disk.writes)
  {
    ghost var before := disk.files;
    var p, ph := FileHash(disk, hash, pair.primary, fates);
    if p == Crash { return Crash; }
    var b, bh := FileHash(disk, hash, pair.backup, fates);
    if b == Crash { return Crash; }
    r := Fine;
    if p != Fine && b == Fine {
      r := CopyFile(disk, pair.backup, pair.primary, fates);
      WholeIsFront(before[pair.backup]);
    } else if p == Fine && b == Fine && ph != bh {
      r := AtomicReplace(disk, pair.backup, pair.primary, fates);
      WholeIsFront(before[pair.backup]);
    }
  }

  lemma WholeIsFront(data: Bytes)
    ensures data[..|data|] == data
  {
  }

  /** What a pass has established when it has handled the first `i` pairs. */
  ghost predicate PassedOver(pairs: seq<Pair>, before: Files, now: Files, unread: set<Path>, i: nat) {
    && i <= |pairs|
    && Framed(pairs, before, now)
    && (forall j :: 0 <= j < i ==> OldOrFromBackup(before, now, pairs[j]) && Whole(before, now, pairs[j], unread))
    && Untouched(pairs, before, now, i)
  }

  /** From pair `i` on no primary and no stage has changed. */
  ghost predicate Untouched(pairs: seq<Pair>, before: Files, now: Files, i: nat) {
    forall j :: i <= j < |pairs| ==> SameAt(before, now, pairs[j].primary) && SameAt(before, now, Stage(pairs[j].primary))
  }

  predicate AllDone(hash: Bytes -> Bytes, files: Files, pairs: seq<Pair>, unread: set<Path>) {
    forall i :: 0 <= i < |pairs| ==> Done(hash, files, pairs[i], unread)
  }

  /** What a pass leaves behind, however far it got. */
  ghost predicate PassKeeps(pairs: seq<Pair>, before: Files, now: Files, unread: set<Path>) {
    && Framed(pairs, before, now)
    && forall i :: 0 <= i < |pairs| ==> OldOrFromBackup(before, now, pairs[i]) && Whole(before, now, pairs[i], unread)
  }

  predicate AllSettled(hash: Bytes -> Bytes, files: Files, pairs: seq<Pair>) {
    forall i :: 0 <= i < |pairs| ==> Settled(hash, files, pairs[i])
  }

  /**
   * ensureFileIntegrity: one pass over the pairs, stopping at the first error. It is fine exactly when it got through
   * all of them, each then settled or with a backup that could not be read. Otherwise pair `at` needed a repair that
   * failed or crashed, those before it are as just said, and those after it untouched.
   */
  method EnsureFileIntegrity(disk: Disk, hash: Bytes -> Bytes, pairs: seq<Pair>, fates: nat -> Fate) returns (r: Io, ghost at: nat)
    requires Separate(pairs)
    modifies disk
    ensures PassKeeps(pairs, old(disk.files), disk.files, disk.unread)
    ensures at <= |pairs| && (r == Fine <==> at == |pairs|) && AllDone(hash, disk.files, pairs[..at], disk.unread)
    ensures r != Fine ==> Untouched(pairs, old(disk.files), disk.files, at + 1) && Stopped(fates, r, old(disk.step), disk.step)
    ensures r == Error ==> Needs(hash, old(disk.files), pairs[at], disk.unread)
    ensures (forall k :: Clean(fates(k))) ==> r == Fine && AllSettled(hash, disk.files, pairs)
    ensures (forall k :: Clean(fates(k))) && AllSettled(hash, old(disk.files), pairs) ==>
      disk.files == old(disk.files) && disk.writes == old(disk.writes)
  {
    ghost var before, writes := disk.files, disk.writes;
    ghost var clean := forall k :: Clean(fates(k));
    ghost var settled := AllSettled(hash, before, pairs);
    r, at := Fine, 0;
    disk.unread := {};
    for i := 0 to |pairs|
      invariant at == i && disk.step >= old(disk.step) && AllDone(hash, disk.files, pairs[..i], disk.unread)
      invariant r == Fine && PassedOver(pairs, before, disk.files, disk.unread, i)
      invariant clean ==> AllSettled(hash, disk.files, pairs[..i])
      invariant clean && settled ==> disk.files == before && disk.writes == writes
    {
      ghost var mid, unread := disk.files, disk.unread;
      r := RepairPair(disk, hash, pairs[i], fates);
      PairStep(pairs, before, mid, disk.files, unread, disk.unread, i);
      DoneStays(hash, pairs, mid, disk.files, unread, disk.unread, i);
      if r != Fine {
        NeededBefore(hash, pairs, before, mid, unread, disk.unread, i);
        return;
      }
      if clean { SettledStays(hash, pairs, mid, disk.files, i); }
      at := i + 1;
    }
    assert pairs[..|pairs|] == pairs;
  }

  /** Repairing pair `i` keeps what the pass has established for the others. */
  lemma PairStep(pairs: seq<Pair>, before: Files, mid: Files, now: Files, unread: set<Path>, unread': set<Path>, i: nat)
    requires Separate(pairs) && i < |pairs| && unread <= unread'
    requires PassedOver(pairs, before, mid, unread, i)
    requires forall p :: p != pairs[i].primary && p != Stage(pairs[i].primary) ==> SameAt(mid, now, p)
    requires OldOrFromBackup(mid, now, pairs[i]) && Whole(mid, now, pairs[i], unread')
    ensures PassedOver(pairs, before, now, unread', i + 1)
    ensures PassKeeps(pairs, before, now, unread')
  {
    assert !Written(pairs, pairs[i].backup);
    assert SameAt(before, mid, pairs[i].backup);
    forall p | !Written(pairs, p) ensures SameAt(before, now, p) {
      assert SameAt(before, mid, p);
      assert p != pairs[i].primary && p != Stage(pairs[i].primary);
      assert SameAt(mid, now, p);
    }
    forall j | 0 <= j < |pairs| && j != i
      ensures i < j ==> SameAt(before, now, pairs[j].primary) && SameAt(before, now, Stage(pairs[j].primary))
      ensures OldOrFromBackup(before, now, pairs[j]) && Whole(before, now, pairs[j], unread')
    {
      assert SameAt(mid, now, pairs[j].primary);
      StageIsInjective(pairs[i].primary, pairs[j].primary);
      assert SameAt(mid, now, Stage(pairs[j].primary));
    }
  }

  lemma StageIsInjective(p: Path, q: Path)
    ensures Stage(p) == Stage(q) ==> p == q
  {
    if Stage(p) == Stage(q) {
      assert Stage(p)[..|p|] == p && Stage(q)[..|q|] == q;
    }
  }

  lemma NeededBefore(hash: Bytes -> Bytes, pairs: seq<Pair>, before: Files, mid: Files, unread: set<Path>, unread': set<Path>, i: nat)
    requires Separate(pairs) && i < |pairs| && PassedOver(pairs, before, mid, unread, i)
    ensures Needs(hash, mid, pairs[i], unread') ==> Needs(hash, before, pairs[i], unread')
  {
    assert !Written(pairs, pairs[i].backup);
    assert SameAt(before, mid, pairs[i].backup) && SameAt(before, mid, pairs[i].primary);
  }

  lemma DoneStays(hash: Bytes -> Bytes, pairs: seq<Pair>, mid: Files, now: Files, unread: set<Path>, unread': set<Path>, i: nat)
    requires Separate(pairs) && i < |pairs| && AllDone(hash, mid, pairs[..i], unread) && unread <= unread'
    requires forall p :: p != pairs[i].primary && p != Stage(pairs[i].primary) ==> SameAt(mid, now, p)
    ensures AllDone(hash, now, pairs[..i], unread')
    ensures Done(hash, now, pairs[i], unread') ==> AllDone(hash, now, pairs[..i + 1], unread')
  {
    forall j | 0 <= j < i ensures Done(hash, now, pairs[j], unread') {
      assert Done(hash, mid, pairs[..i][j], unread);
      assert SameAt(mid, now, pairs[j].primary) && SameAt(mid, now, pairs[j].backup);
    }
  }

  lemma SettledStays(hash: Bytes -> Bytes, pairs: seq<Pair>, mid: Files, now: Files, i: nat)
    requires Separate(pairs) && i < |pairs| && AllSettled(hash, mid, pairs[..i]) && Settled(hash, now, pairs[i])
    requires forall p :: p != pairs[i].primary && p != Stage(pairs[i].primary) ==> SameAt(mid, now, p)
    ensures AllSettled(hash, now, pairs[..i + 1])
  {
    forall j | 0 <= j < i ensures Settled(hash, now, pairs[j]) {
      assert Settled(hash, mid, pairs[..i][j]);
      assert SameAt(mid, now, pairs[j].primary) && SameAt(mid, now, pairs[j].backup);
    }
  }

  // -------- any number of cut-off passes, then a clean one --------

  /**
   * The enforcement loop over any number of passes that may fail or crash anywhere, ended by one clean pass: every
   * pair is settled and no backup ever changed. By the last clause of EnsureFileIntegrity the next clean pass writes nothing.
   */
  method EnforceThroughCrashes(disk: Disk, hash: Bytes -> Bytes, pairs: seq<Pair>, passes: seq<nat -> Fate>)
    requires Separate(pairs)
    modifies disk
    ensures Framed(pairs, old(disk.files), disk.files)
    ensures forall i :: 0 <= i < |pairs| ==> SameAt(old(disk.files), disk.files, pairs[i].backup)
    ensures AllSettled(hash, disk.files, pairs)
  {
    ghost var before := disk.files;
    var clean: nat -> Fate := k => Works;
    for n := 0 to |passes|
      invariant Framed(pairs, before, disk.files)
    {
      var _, _ := EnsureFileIntegrity(disk, hash, pairs, passes[n]);
    }
    var _, _ := EnsureFileIntegrity(disk, hash, pairs, clean);
    forall i | 0 <= i < |pairs| ensures SameAt(before, disk.files, pairs[i].backup) {
      assert !Written(pairs, pairs[i].backup);
    }
  }

  /**
   * The other side of Whole: any read error counts as a missing file, so an intact primary whose read fails is copied
   * over in place, and a crash then leaves it empty.
   */
  method UnreadPrimaryIsEmptied(disk: Disk, hash: Bytes -> Bytes, pair: Pair) returns (r: Io)
    requires pair.backup != pair.primary && pair.backup != Stage(pair.primary)
    requires pair.primary in disk.files && pair.backup in disk.files
    modifies disk
    ensures r == Crash && disk.files == old(disk.files)[pair.primary := []]
  {
    var n := disk.step;
    r := RepairPair(disk, hash, pair, k => if k == n then Fails(0) else if k == n + 4 then Crashes(1) else Works);
  }

  /** With a collision-free hash a settled primary is its backup, byte for byte; with a collision it need not be. */
  lemma SettledMeansEqual(hash: Bytes -> Bytes, files: Files, pair: Pair)
    requires pair.backup in files
    requires forall a, b :: hash(a) == hash(b) ==> a == b
    ensures Settled(hash, files, pair) <==> pair.primary in files && files[pair.primary] == files[pair.backup]
  {
  }

  lemma StageLetters(p: Path)
    requires |p| > 11
    ensures Stage(p)[3] == p[3] && Stage(p)[11] == p[11] && Stage(p) != p
  {
    assert |Stage(p)| == |p| + 4;
  }

  /** Two pairs whose paths differ as the source's do. */
  lemma SeparateByLetters(a: Pair, b: Pair)
    requires |a.primary| > 11 && |a.backup| > 11 && |b.primary| > 11 && |b.backup| > 11
    requires a.primary[3] != b.primary[3]
    requires a.backup[11] == b.backup[11] && a.primary[11] != a.backup[11] && b.primary[11] != a.backup[11]
    ensures Separate([a, b])
  {
    StageLetters(a.primary);
    StageLetters(b.primary);
  }

  lemma DriverPrimaryLetters()
    ensures |DRIVER_PRIMARY| > 11 && DRIVER_PRIMARY[3] == 'W' && DRIVER_PRIMARY[11] == 'S'
  {
  }

  lemma ServicePrimaryLetters()
    ensures |SERVICE_PRIMARY| > 11 && SERVICE_PRIMARY[3] == 'P' && SERVICE_PRIMARY[11] == 'a'
  {
  }

  lemma BackupLetters()
    ensures |DRIVER_BACKUP| > 11 && DRIVER_BACKUP[11] == 'L' && |SERVICE_BACKUP| > 11 && SERVICE_BACKUP[11] == 'L'
  {
    var restore := WINDOWS + "Lockguard-Restore\\";
    assert |WINDOWS| == 11 && restore[11] == 'L';
  }

  /** The two pairs of the source are separate. */
  lemma SourcePairsSeparate()
    ensures Separate(PAIRS)
  {
    DriverPrimaryLetters();
    ServicePrimaryLetters();
    BackupLetters();
    SeparateByLetters(PAIRS[0], PAIRS[1]);
  }
}
