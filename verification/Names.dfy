/** Name matching: which file paths, registry keys and images the callbacks guard. */
module Names {
  import opened Common

  // UTF-16 code units, and the bound a UNICODE_STRING puts on them: a 16-bit even byte length.
  type Wchar = bv16
  type Wide = seq<Wchar>
  type Name = n: Wide | |n| <= 32767 witness []
  newtype u16 = x: int | 0 <= x < 0x1_0000

  // Case folding is a foreign table.
  type Folding = Wchar -> Wchar

  const BACKSLASH: Wchar := 92
  const SLASH: Wchar := 47

  function W(s: string): (w: Wide)
    ensures |w| == |s|
  {
    seq(|s|, i requires 0 <= i < |s| => if s[i] as int < 0x1_0000 then (s[i] as int) as bv16 else 0)
  }

  /** What the callbacks guard: path substrings, key prefixes, and image names to protect or block. */
  datatype Tables = Tables(paths: seq<Wide>, keys: seq<Wide>, images: seq<Wide>, blocked: seq<Wide>)

  /** The driver's tables. Every theorem holds of any tables, these included. */
  const DRIVER_TABLES: Tables := Tables(
    [
      W("\\ProgramData\\Lockguard\\"),
      W("\\Windows\\System32\\drivers\\lockguard.sys"),
      W("\\Windows\\Lockguard-Restore\\"),
      W("\\EFI\\Microsoft\\Boot\\BCD")
    ],
    [
      W("\\Registry\\Machine\\SYSTEM\\CurrentControlSet\\Services\\Lockguard"),
      W("\\Registry\\Machine\\SYSTEM\\CurrentControlSet\\Services\\lockguard-svc"),
      W("\\Registry\\Machine\\BCD00000000"),
      W("\\Registry\\Machine\\SYSTEM\\CurrentControlSet\\Services\\Wlansvc"),
      W("\\Registry\\Machine\\SYSTEM\\Lockguard\\Recovery"),
      W("\\Registry\\Machine\\SYSTEM\\CurrentControlSet\\Control\\Class\\{4d36e972-e325-11ce-bfc1-08002be10318}"),
      W("\\Registry\\Machine\\Software\\Microsoft\\Windows NT\\CurrentVersion\\Image File Execution Options"),
      W("\\Registry\\Machine\\SOFTWARE\\Microsoft\\Windows NT\\CurrentVersion\\Schedule\\TaskCache\\Tree\\Microsoft\\Windows\\Lockguard")
    ],
    [W("lockguard-svc.exe"), W("services.exe")],
    [
      W("regedit.exe"), W("taskmgr.exe"), W("bcdedit.exe"), W("procmon.exe"), W("procmon64.exe"),
      W("procexp.exe"), W("procexp64.exe"), W("pchunter.exe"), W("pchunter64.exe"), W("dbgview.exe"),
      W("kdbgctrl.exe"), W("windbg.exe"), W("x64dbg.exe"), W("ollydbg.exe"), W("autoruns.exe"),
      W("autorunsc.exe"), W("powershell_ise.exe"), W("cmd.exe"), W("mmc.exe"), W("wmic.exe"),
      W("tasklist.exe"), W("runas.exe"), W("sdbinst.exe"), W("mavinject.exe"), W("installutil.exe"),
      W("regsvr32.exe"), W("schtasks.exe"), W("dnscmd.exe")
    ])

  /** How many entries each table has, and how one is encoded. */
  lemma TableSizes()
    ensures |DRIVER_TABLES.paths| == 4 && |DRIVER_TABLES.keys| == 8 && |DRIVER_TABLES.images| == 2 && |DRIVER_TABLES.blocked| == 28
    ensures W("cmd.exe") == [99, 109, 100, 46, 101, 120, 101]
  {
  }

  predicate FoldEqual(fold: Folding, a: Wide, b: Wide) {
    |a| == |b| && forall i :: 0 <= i < |a| ==> fold(a[i]) == fold(b[i])
  }

  predicate OccursAt(fold: Folding, needle: Wide, hay: Wide, off: nat) {
    off + |needle| <= |hay| && FoldEqual(fold, hay[off..off + |needle|], needle)
  }

  /** Some entry occurs in the name as a contiguous case-insensitive substring. */
  predicate ContainsAny(fold: Folding, table: seq<Wide>, name: Wide) {
    exists k, off :: 0 <= k < |table| && 0 <= off <= |name| && OccursAt(fold, table[k], name, off)
  }

  /** Some entry is a case-insensitive prefix of the name. */
  predicate StartsWithAny(fold: Folding, table: seq<Wide>, name: Wide) {
    exists k :: 0 <= k < |table| && OccursAt(fold, table[k], name, 0)
  }

  /** The part of a path after its last separator. */
  function Basename(seps: set<Wchar>, path: Wide): (base: Wide) {
    if path == [] || path[|path| - 1] in seps then []
    else Basename(seps, path[..|path| - 1]) + [path[|path| - 1]]
  }

  predicate BaseIn(fold: Folding, seps: set<Wchar>, path: Wide, table: seq<Wide>) {
    exists k :: 0 <= k < |table| && FoldEqual(fold, Basename(seps, path), table[k])
  }

  // -------- what the searches find, in folded names --------

  function Folded(fold: Folding, a: Wide): (b: Wide)
    ensures |b| == |a|
  {
    seq(|a|, i requires 0 <= i < |a| => fold(a[i]))
  }

  lemma FoldedParts(fold: Folding, a: Wide, b: Wide)
    ensures Folded(fold, a + b) == Folded(fold, a) + Folded(fold, b)
  {
  }

  /** Equality without case is equality of the folded names. */
  lemma FoldEqualMeans(fold: Folding, a: Wide, b: Wide)
    ensures FoldEqual(fold, a, b) <==> Folded(fold, a) == Folded(fold, b)
  {
    if Folded(fold, a) == Folded(fold, b) {
      forall i | 0 <= i < |a| ensures fold(a[i]) == fold(b[i]) {
        assert Folded(fold, a)[i] == Folded(fold, b)[i];
      }
    }
  }

  /** The folded name is the folded entry between two parts. */
  predicate Between(fold: Folding, name: Wide, before: Wide, entry: Wide, after: Wide) {
    Folded(fold, name) == before + Folded(fold, entry) + after
  }

  /** The path search is exact substring search in the folded name. */
  lemma ContainsMeans(fold: Folding, table: seq<Wide>, name: Wide)
    ensures ContainsAny(fold, table, name) <==>
      exists k, before, after :: 0 <= k < |table| && Between(fold, name, before, table[k], after)
  {
    if ContainsAny(fold, table, name) {
      var k, off :| 0 <= k < |table| && 0 <= off <= |name| && OccursAt(fold, table[k], name, off);
      OccursBetween(fold, name, off, table[k]);
    }
    if k, before, after :| 0 <= k < |table| && Between(fold, name, before, table[k], after) {
      assert |Folded(fold, name)| == |before| + |table[k]| + |after|;
      BetweenOccurs(fold, name, before, table[k], after);
    }
  }

  lemma OccursBetween(fold: Folding, name: Wide, off: nat, entry: Wide)
    requires OccursAt(fold, entry, name, off)
    ensures Between(fold, name, Folded(fold, name[..off]), entry, Folded(fold, name[off + |entry|..]))
  {
    var mid := name[off..off + |entry|];
    FoldEqualMeans(fold, mid, entry);
    assert name == name[..off] + mid + name[off + |entry|..];
    FoldedParts(fold, name[..off] + mid, name[off + |entry|..]);
    FoldedParts(fold, name[..off], mid);
  }

  lemma BetweenOccurs(fold: Folding, name: Wide, before: Wide, entry: Wide, after: Wide)
    requires Between(fold, name, before, entry, after)
    ensures OccursAt(fold, entry, name, |before|)
  {
    var off := |before|;
    forall i | 0 <= i < |entry| ensures fold(name[off + i]) == fold(entry[i]) {
      assert Folded(fold, name)[off + i] == Folded(fold, entry)[i];
    }
  }

  /** The key search is an exact prefix test of the folded name. */
  lemma StartsMeans(fold: Folding, table: seq<Wide>, name: Wide)
    ensures StartsWithAny(fold, table, name) <==> exists k :: 0 <= k < |table| && Folded(fold, table[k]) <= Folded(fold, name)
  {
    forall k | 0 <= k < |table| ensures OccursAt(fold, table[k], name, 0) <==> Folded(fold, table[k]) <= Folded(fold, name) {
      if OccursAt(fold, table[k], name, 0) {
        FoldEqualMeans(fold, name[0..0 + |table[k]|], table[k]);
        assert Folded(fold, name)[..|table[k]|] == Folded(fold, name[0..0 + |table[k]|]);
      }
      if Folded(fold, table[k]) <= Folded(fold, name) {
        assert Folded(fold, name) == Folded(fold, table[k]) + Folded(fold, name)[|table[k]|..];
        assert [] + Folded(fold, table[k]) == Folded(fold, table[k]);
        BetweenOccurs(fold, name, [], table[k], Folded(fold, name)[|table[k]|..]);
      }
    }
  }

  /** So none of the two depends on the case of the name. */
  lemma CaseDoesNotMatter(fold: Folding, table: seq<Wide>, a: Wide, b: Wide)
    requires Folded(fold, a) == Folded(fold, b)
    ensures ContainsAny(fold, table, a) <==> ContainsAny(fold, table, b)
    ensures StartsWithAny(fold, table, a) <==> StartsWithAny(fold, table, b)
  {
    ContainsMeans(fold, table, a);
    ContainsMeans(fold, table, b);
    forall entry, before, after ensures Between(fold, a, before, entry, after) <==> Between(fold, b, before, entry, after) {
    }
    StartsMeans(fold, table, a);
    StartsMeans(fold, table, b);
  }

  /** The part of the path from `i` on is its base name, and in folded form an entry. */
  predicate BaseFrom(fold: Folding, seps: set<Wchar>, path: Wide, i: nat, entry: Wide) {
    && i <= |path| && (i == 0 || path[i - 1] in seps) && (forall j :: i <= j < |path| ==> path[j] !in seps)
    && Folded(fold, path[i..]) == Folded(fold, entry)
  }

  /** The image search compares the whole part after the last separator with the entries. */
  lemma BaseMeans(fold: Folding, seps: set<Wchar>, path: Wide, table: seq<Wide>)
    ensures BaseIn(fold, seps, path, table) <==> exists k, i :: 0 <= k < |table| && 0 <= i && BaseFrom(fold, seps, path, i, table[k])
  {
    var i := LastPart(seps, path);
    BasenameIsTheSuffix(seps, path, i);
    forall k | 0 <= k < |table| ensures FoldEqual(fold, path[i..], table[k]) <==> BaseFrom(fold, seps, path, i, table[k]) {
      FoldEqualMeans(fold, path[i..], table[k]);
    }
    forall k, j | 0 <= k < |table| && 0 <= j && BaseFrom(fold, seps, path, j, table[k]) ensures j == i {
    }
  }

  /** Where the base name starts. */
  function LastPart(seps: set<Wchar>, path: Wide): (i: nat)
    ensures i <= |path| && (i == 0 || path[i - 1] in seps) && forall j :: i <= j < |path| ==> path[j] !in seps
  {
    if path == [] || path[|path| - 1] in seps then |path| else LastPart(seps, path[..|path| - 1])
  }

  /** The base name is the one suffix that holds no separator and starts the path or follows one. */
  lemma {:induction false} BasenameIsTheSuffix(seps: set<Wchar>, path: Wide, i: nat)
    requires i <= |path|
    requires i == 0 || path[i - 1] in seps
    requires forall j :: i <= j < |path| ==> path[j] !in seps
    ensures Basename(seps, path) == path[i..]
    decreases |path|
  {
    if i < |path| {
      var init := path[..|path| - 1];
      BasenameIsTheSuffix(seps, init, i);
      assert path[i..] == init[i..] + [path[|path| - 1]];
    }
  }

  /** The nested search over names and offsets, with 16-bit offsets. */
  method PathMatches(fold: Folding, table: seq<Wide>, lookup: Option<Name>) returns (hit: bool)
    ensures hit <==> lookup.Some? && ContainsAny(fold, table, lookup.value)
  {
    if lookup.None? { return false; }
    var name := lookup.value;
    hit := false;
    var i := 0;
    while i < |table|
      invariant 0 <= i <= |table|
      invariant hit ==> ContainsAny(fold, table, name)
      invariant !hit ==> forall k, off :: 0 <= k < i && 0 <= off <= |name| ==> !OccursAt(fold, table[k], name, off)
    {
      var needle := table[i];
      if |name| >= |needle| {
        var lastStart := (|name| - |needle|) as u16;
        var off: u16 := 0;
        while off <= lastStart
          invariant 0 <= off <= lastStart + 1
          invariant !hit
          invariant forall o :: 0 <= o < off as int ==> !OccursAt(fold, needle, name, o)
        {
          var window := name[off as int..off as int + |needle|];
          if FoldEqual(fold, window, needle) {
            assert OccursAt(fold, table[i], name, off as int);
            hit := true;
            break;
          }
          off := off + 1;
        }
      }
      if hit { break; }
      i := i + 1;
    }
  }

  /** The prefix search of the registry callback. */
  method KeyNameMatchesAny(fold: Folding, table: seq<Wide>, lookup: Option<Name>) returns (hit: bool)
    ensures hit <==> lookup.Some? && StartsWithAny(fold, table, lookup.value)
  {
    if lookup.None? { return false; }
    var name := lookup.value;
    for i := 0 to |table|
      invariant forall k :: 0 <= k < i ==> !OccursAt(fold, table[k], name, 0)
    {
      var pfx := table[i];
      if |name| < |pfx| { continue; }
      if FoldEqual(fold, name[..|pfx|], pfx) {
        assert name[..|pfx|] == name[0..0 + |pfx|];
        return true;
      }
    }
    return false;
  }

  const IMAGE_SEPS: set<Wchar> := {BACKSLASH}
  const START_SEPS: set<Wchar> := {BACKSLASH, SLASH}

  /** Walk back to the base name, then scan a table of lower-case names of exactly its length. */
  method BaseInTable(fold: Folding, seps: set<Wchar>, path: Name, table: seq<Wide>) returns (hit: bool)
    ensures hit <==> BaseIn(fold, seps, path, table)
  {
    var i := |path| as u16;
    while i > 0 && path[i - 1] !in seps
      invariant 0 <= i as int <= |path|
      invariant forall j :: i as int <= j < |path| ==> path[j] !in seps
    {
      i := i - 1;
    }
    var base := path[i as int..];
    BasenameIsTheSuffix(seps, path, i as int);
    for k := 0 to |table|
      invariant forall j :: 0 <= j < k ==> !FoldEqual(fold, base, table[j])
    {
      if |base| == |table[k]| && FoldEqual(fold, base, table[k]) { return true; }
    }
    return false;
  }
}
