/**
 Inspecting a release archive member by member. A member sequence is accepted exactly when it
 describes one bounded file tree under the root, whatever the order of its members.
 */
module Archive {
  import opened Common
  import opened ArchivePath

  const MAX_FILES: nat := 4096
  const MAX_BYTES: nat := 512 * 1024 * 1024
  const MAX_JSON_BYTES: nat := 8 * 1024 * 1024
  const CHUNK: nat := 1024 * 1024

  /** `hashed` is what the digest was computed over. */
  datatype ArchiveFile = ArchiveFile(size: nat, hashed: seq<Byte>, content: Option<seq<Byte>>, mode: Option<nat>)

  /**
   One member, as far as both formats agree. Its own format's checks are summed up by `refused`, for
   any member, and `usable`, for one that is not the archive's own root.
   */
  datatype Item = Item(
    raw: string, isDirectory: bool, refused: bool, usable: bool, declared: int, bytes: seq<Byte>, mode: Option<nat>)

  datatype TarMember = TarMember(
    name: string, isDirectory: bool, isFile: bool, size: int, stream: Option<seq<Byte>>, mode: nat)

  /** `attributes` are the external attributes, whose upper half is a POSIX mode. */
  datatype ZipMember = ZipMember(
    name: string, isDirectory: bool, encrypted: bool, compression: nat, attributes: nat, size: int, stream: seq<Byte>)

  const STORED: nat := 0
  const DEFLATED: nat := 8
  const S_IFREG: nat := 0x8000
  const S_IFDIR: nat := 0x4000

  function TarItem(m: TarMember): Item {
    Item(m.name, m.isDirectory, false, m.isDirectory || (m.isFile && m.stream.Some?), m.size,
         if m.stream.Some? then m.stream.value else [], Some(m.mode))
  }

  function Mode(attributes: nat): nat {
    attributes / 0x1_0000 % 0x1_0000
  }

  function FileType(mode: nat): nat {
    mode / 0x1000 * 0x1000
  }

  function ZipItem(m: ZipMember): Item {
    var mode := Mode(m.attributes);
    Item(m.name, m.isDirectory, m.encrypted || (m.compression != STORED && m.compression != DEFLATED),
         FileType(mode) == 0 || FileType(mode) == (if m.isDirectory then S_IFDIR else S_IFREG), m.size, m.stream,
         if mode == 0 then None else Some(mode))
  }

  predicate Readable(bytes: seq<Byte>, declared: int, capture: bool) {
    declared == |bytes| && declared <= MAX_BYTES && (capture ==> declared <= MAX_JSON_BYTES)
  }

  function Entry(bytes: seq<Byte>, capture: bool, mode: Option<nat>): ArchiveFile {
    ArchiveFile(|bytes|, bytes, if capture then Some(bytes) else None, mode)
  }

  /** A decompressed member being read: any nonempty part of what is left may come back, nothing only at the end. */
  class Stream {
    var left: seq<Byte>

    constructor (bytes: seq<Byte>)
      ensures left == bytes
    {
      left := bytes;
    }

    method Read(n: nat) returns (chunk: seq<Byte>)
      requires n > 0
      modifies this
      ensures |chunk| <= n && old(left) == chunk + left && (chunk == [] ==> left == [])
    {
      if left == [] { return []; }
      var k :| 0 < k <= n && k <= |left|;
      chunk := left[..k];
      left := left[k..];
    }
  }

  /** Reads at most one byte past the declared size, in bounded chunks. */
  method ReadArchiveFile(bytes: seq<Byte>, declared: int, capture: bool, mode: Option<nat>)
    returns (r: Result<ArchiveFile, ()>, ghost consumed: nat)
    ensures consumed <= if 0 <= declared <= MAX_BYTES then declared + 1 else 0
    ensures r == if Readable(bytes, declared, capture) then Ok(Entry(bytes, capture, mode)) else Err(())
  {
    if declared < 0 || declared > MAX_BYTES { return Err(()), 0; }
    if capture && declared > MAX_JSON_BYTES { return Err(()), 0; }
    consumed := 0;
    var stream := new Stream(bytes);
    var hashed: seq<Byte>, content: seq<Byte>, actual := [], [], 0;
    while true
      invariant bytes == hashed + stream.left && consumed == actual == |hashed| <= declared
      invariant content == if capture then hashed else []
      decreases |stream.left|
    {
      var chunk := stream.Read(if declared - actual + 1 < CHUNK then declared - actual + 1 else CHUNK);
      consumed := consumed + |chunk|;
      if chunk == [] {
        assert hashed == bytes;
        break;
      }
      actual := actual + |chunk|;
      if actual > declared { return Err(()), consumed; }
      assert bytes == (hashed + chunk) + stream.left;
      hashed := hashed + chunk;
      if capture { content := content + chunk; }
    }
    if actual != declared { return Err(()), consumed; }
    r := Ok(ArchiveFile(actual, hashed, if capture then Some(content) else None, mode));
  }

  function NameOf(m: Item): Option<string> {
    var n := Name(m.raw, m.isDirectory);
    if n.Ok? then n.value else None
  }

  predicate IsFile(m: Item) {
    !m.isDirectory && NameOf(m).Some?
  }

  predicate UnderRoot(name: string, root: string, isDirectory: bool) {
    if name == root then isDirectory else Above(root, name)
  }

  /** What a member must satisfy by itself. */
  predicate Sound(m: Item, root: string, captured: set<string>) {
    && !m.refused && Name(m.raw, m.isDirectory).Ok?
    && (NameOf(m).Some? ==>
          && UnderRoot(NameOf(m).value, root, m.isDirectory) && m.usable
          && (!m.isDirectory ==> Readable(m.bytes, m.declared, NameOf(m).value in captured)))
  }

  /** Two members may share a tree: different places, and no file above the other. */
  predicate Compatible(a: Item, b: Item) {
    NameOf(a).Some? && NameOf(b).Some? ==>
      && NameOf(a) != NameOf(b)
      && !(IsFile(a) && Above(NameOf(a).value, NameOf(b).value))
      && !(IsFile(b) && Above(NameOf(b).value, NameOf(a).value))
  }

  function Size(m: Item): nat {
    if IsFile(m) then |m.bytes| else 0
  }

  function Total(ms: seq<Item>): nat {
    if ms == [] then 0 else Total(ms[..|ms| - 1]) + Size(ms[|ms| - 1])
  }

  ghost predicate AllSound(ms: seq<Item>, root: string, captured: set<string>) {
    forall i :: 0 <= i < |ms| ==> Sound(ms[i], root, captured)
  }

  ghost predicate AllCompatible(ms: seq<Item>) {
    forall i, j :: 0 <= i < j < |ms| ==> Compatible(ms[i], ms[j])
  }

  /** The members describe one bounded file tree. Nothing here depends on their order. */
  ghost predicate Acceptable(ms: seq<Item>, root: string, captured: set<string>) {
    |ms| <= MAX_FILES && AllSound(ms, root, captured) && AllCompatible(ms) && Total(ms) <= MAX_BYTES
  }

  /**
   Acceptance spelled out: at most 4096 members and 512 MiB, each sound by itself, no two with one name,
   and no file above anything.
   */
  lemma AcceptableExactly(ms: seq<Item>, root: string, captured: set<string>)
    ensures Acceptable(ms, root, captured) <==>
      && |ms| <= 4096 && Total(ms) <= 536_870_912
      && (forall i :: 0 <= i < |ms| ==> Sound(ms[i], root, captured))
      && (forall i, j :: 0 <= i < |ms| && 0 <= j < |ms| && i != j && NameOf(ms[i]).Some? && NameOf(ms[j]).Some? ==>
            && NameOf(ms[i]).value != NameOf(ms[j]).value
            && (ms[i].isDirectory || !(NameOf(ms[i]).value + "/" <= NameOf(ms[j]).value)))
  {
    hide Name, Sound, Total;
    if forall i, j :: 0 <= i < |ms| && 0 <= j < |ms| && i != j && NameOf(ms[i]).Some? && NameOf(ms[j]).Some? ==>
         && NameOf(ms[i]).value != NameOf(ms[j]).value
         && (ms[i].isDirectory || !(NameOf(ms[i]).value + "/" <= NameOf(ms[j]).value)) {
      forall i, j | 0 <= i < j < |ms| ensures Compatible(ms[i], ms[j]) {
      }
    }
    if AllCompatible(ms) {
      forall i, j | 0 <= i < |ms| && 0 <= j < |ms| && i != j && NameOf(ms[i]).Some? && NameOf(ms[j]).Some?
        ensures NameOf(ms[i]).value != NameOf(ms[j]).value
        ensures ms[i].isDirectory || !(NameOf(ms[i]).value + "/" <= NameOf(ms[j]).value)
      {
        if i < j { assert Compatible(ms[i], ms[j]); } else { assert Compatible(ms[j], ms[i]); }
      }
    }
  }

  lemma {:induction false} TotalIsSum(ms: seq<Item>, m: Item)
    ensures Total([]) == 0
    ensures Total(ms + [m]) == Total(ms) + if !m.isDirectory && NameOf(m).Some? then |m.bytes| else 0
  {
    assert (ms + [m])[..|ms|] == ms;
  }

  ghost predicate Fits(ms: seq<Item>, m: Item) {
    forall i :: 0 <= i < |ms| ==> Compatible(ms[i], m)
  }

  lemma {:induction false} TotalMonotone(ms: seq<Item>, k: nat)
    requires k <= |ms|
    ensures Total(ms[..k]) <= Total(ms)
    decreases |ms|
  {
    if k == |ms| {
      assert ms[..k] == ms;
    } else {
      TotalMonotone(ms[..|ms| - 1], k);
      assert ms[..|ms| - 1][..k] == ms[..k];
    }
  }

  lemma AcceptableSize(ms: seq<Item>, root: string, captured: set<string>)
    ensures Acceptable(ms, root, captured) ==> |ms| <= MAX_FILES
  {
  }

  lemma AcceptableSound(ms: seq<Item>, k: nat, root: string, captured: set<string>)
    requires k < |ms|
    ensures Acceptable(ms, root, captured) ==> Sound(ms[k], root, captured)
  {
  }

  lemma PrefixAcceptable(ms: seq<Item>, k: nat, root: string, captured: set<string>)
    requires k <= |ms| && Acceptable(ms, root, captured)
    ensures Acceptable(ms[..k], root, captured)
  {
    TotalMonotone(ms, k);
  }

  /** One more member keeps a prefix acceptable exactly when it is sound, fits, and stays within the bounds. */
  lemma OneMoreMember(ms: seq<Item>, k: nat, root: string, captured: set<string>)
    requires k < |ms| && Acceptable(ms[..k], root, captured)
    ensures Total(ms[..k]) <= MAX_BYTES
    ensures Acceptable(ms[..k + 1], root, captured) <==>
      && k < MAX_FILES && Sound(ms[k], root, captured) && Fits(ms[..k], ms[k])
      && Total(ms[..k]) + Size(ms[k]) <= MAX_BYTES
  {
    hide Sound, Compatible, Size;
    var next := ms[..k + 1];
    assert next[..k] == ms[..k];
    if Acceptable(next, root, captured) {
      assert Sound(next[k], root, captured);
      forall i | 0 <= i < k ensures Compatible(ms[..k][i], ms[k]) { assert Compatible(next[i], next[k]); }
    }
    if k < MAX_FILES && Sound(ms[k], root, captured) && Fits(ms[..k], ms[k]) && Total(next) <= MAX_BYTES {
      forall i | 0 <= i < |next| ensures Sound(next[i], root, captured) {
        if i < k { assert Sound(ms[..k][i], root, captured); }
      }
      forall i, j | 0 <= i < j < |next| ensures Compatible(next[i], next[j]) {
        if j < k { assert Compatible(ms[..k][i], ms[..k][j]); } else { assert Compatible(ms[..k][i], ms[k]); }
      }
    }
  }

  ghost predicate Listed(ms: seq<Item>, name: string) {
    exists i :: 0 <= i < |ms| && NameOf(ms[i]) == Some(name)
  }

  ghost predicate ListedFile(ms: seq<Item>, name: string) {
    exists i :: 0 <= i < |ms| && IsFile(ms[i]) && NameOf(ms[i]) == Some(name)
  }

  /** `files` holds exactly the regular members, each under its name with its own bytes and mode. */
  ghost predicate Holds(files: map<string, ArchiveFile>, ms: seq<Item>, captured: set<string>) {
    && (forall n :: n in files ==> ListedFile(ms, n))
    && (forall i :: 0 <= i < |ms| && IsFile(ms[i]) ==>
          && NameOf(ms[i]).value in files
          && files[NameOf(ms[i]).value] == Entry(ms[i].bytes, NameOf(ms[i]).value in captured, ms[i].mode))
  }

  ghost predicate Seen(seen: set<string>, ms: seq<Item>) {
    forall n :: n in seen <==> Listed(ms, n)
  }

  lemma HoldsMore(files: map<string, ArchiveFile>, ms: seq<Item>, m: Item, captured: set<string>)
    requires Holds(files, ms, captured) && IsFile(m) && NameOf(m).value !in files
    ensures Holds(files[NameOf(m).value := Entry(m.bytes, NameOf(m).value in captured, m.mode)], ms + [m], captured)
  {
    var name := NameOf(m).value;
    var ms', files' := ms + [m], files[name := Entry(m.bytes, name in captured, m.mode)];
    forall n | n in files' ensures ListedFile(ms', n) {
      if n == name { assert ms'[|ms|] == m; } else { ListedFileLater(ms, m, n); }
    }
  }

  lemma ListedFileLater(ms: seq<Item>, m: Item, n: string)
    requires ListedFile(ms, n)
    ensures ListedFile(ms + [m], n)
  {
    var i :| 0 <= i < |ms| && IsFile(ms[i]) && NameOf(ms[i]) == Some(n);
    assert (ms + [m])[i] == ms[i];
  }

  lemma HoldsSame(files: map<string, ArchiveFile>, ms: seq<Item>, m: Item, captured: set<string>)
    requires Holds(files, ms, captured) && !IsFile(m)
    ensures Holds(files, ms + [m], captured)
  {
    forall n | n in files ensures ListedFile(ms + [m], n) { ListedFileLater(ms, m, n); }
  }

  lemma SeenMore(seen: set<string>, ms: seq<Item>, m: Item)
    requires Seen(seen, ms)
    ensures Seen(seen + (if NameOf(m).Some? then {NameOf(m).value} else {}), ms + [m])
  {
    var ms' := ms + [m];
    forall n ensures Listed(ms', n) <==> Listed(ms, n) || NameOf(m) == Some(n) {
      if Listed(ms, n) {
        var i :| 0 <= i < |ms| && NameOf(ms[i]) == Some(n);
        assert ms'[i] == ms[i];
      }
      if NameOf(m) == Some(n) { assert ms'[|ms|] == m; }
    }
  }

  /** The three checks against what came before are compatibility with every earlier member. */
  lemma ChecksAreFits(files: map<string, ArchiveFile>, seen: set<string>, ms: seq<Item>, m: Item, captured: set<string>)
    requires Holds(files, ms, captured) && Seen(seen, ms) && NameOf(m).Some?
    ensures NameOf(m).value !in seen ==> NameOf(m).value !in files
    ensures Fits(ms, m) <==> NameOf(m).value !in seen && !Conflicting(files, seen, NameOf(m).value, !m.isDirectory)
  {
    var name := NameOf(m).value;
    if name !in seen && !Conflicting(files, seen, name, !m.isDirectory) {
      forall i | 0 <= i < |ms| ensures Compatible(ms[i], m) {
        if NameOf(ms[i]).Some? { assert Listed(ms, NameOf(ms[i]).value); }
      }
    }
  }

  ghost predicate Conflicting(files: map<string, ArchiveFile>, seen: set<string>, name: string, regular: bool) {
    || (exists n :: n in files && Above(n, name))
    || (regular && exists n :: n in seen && Above(name, n))
  }

  class Inspector {
    const root: string
    const captured: set<string>
    var files: map<string, ArchiveFile>
    var seen: set<string>
    var totalBytes: nat

    /** What the loop has kept is exactly what the members so far say. */
    ghost predicate Valid(ms: seq<Item>)
      reads this
    {
      && Acceptable(ms, root, captured) && Holds(files, ms, captured) && Seen(seen, ms)
      && totalBytes == Total(ms) && |files| <= |ms|
    }

    constructor (root: string, captured: set<string>)
      ensures Valid([]) && this.root == root && this.captured == captured
    {
      this.root, this.captured, files, seen, totalBytes := root, captured, map[], {}, 0;
    }

    method RejectsHierarchy(name: string, regular: bool) returns (r: bool)
      ensures r <==> Conflicting(files, seen, name, regular)
    {
      var components := Split(name);
      for i := 1 to |components|
        invariant forall j :: 1 <= j < i ==> Join(components[..j]) !in files
      {
        if Join(components[..i]) in files {
          ParentIsAbove(name, i);
          return true;
        }
      }
      assert forall n :: n in files ==> !Above(n, name) by {
        forall n | n in files ensures !Above(n, name) {
          if Above(n, name) {
            var i := AboveIsParent(n, name);
            assert false;
          }
        }
      }
      r := regular && exists n | n in seen :: Above(name, n);
    }

    method RecordFile(m: Item, name: string, ghost ms: seq<Item>) returns (ok: bool)
      requires Valid(ms) && |ms| < MAX_FILES && NameOf(m) == Some(name) && !m.isDirectory
      modifies this
      ensures ok <==>
        Fits(ms, m) && Readable(m.bytes, m.declared, name in captured) && Total(ms) + |m.bytes| <= MAX_BYTES
      ensures ok ==> Holds(files, ms + [m], captured) && Seen(seen, ms + [m]) && totalBytes == Total(ms) + |m.bytes|
      ensures ok ==> |files| <= |ms| + 1
    {
      hide Holds, Seen, Fits, Conflicting, Acceptable, Name, Total;
      ChecksAreFits(files, seen, ms, m, captured);
      if name in seen { return false; }
      var conflict := RejectsHierarchy(name, true);
      if conflict { return false; }
      SeenMore(seen, ms, m);
      HoldsMore(files, ms, m, captured);
      seen := seen + {name};
      if |files| >= MAX_FILES { return false; }
      if totalBytes + m.declared > MAX_BYTES { return false; }
      var entry, consumed := ReadArchiveFile(m.bytes, m.declared, name in captured, m.mode);
      if entry.Err? { return false; }
      assert files[name := entry.value].Keys == files.Keys + {name};
      files := files[name := entry.value];
      totalBytes := totalBytes + entry.value.size;
      ok := true;
    }

    method AddDirectory(m: Item, name: string, ghost ms: seq<Item>) returns (ok: bool)
      requires Valid(ms) && NameOf(m) == Some(name) && m.isDirectory
      modifies this`seen
      ensures ok <==> Fits(ms, m)
      ensures ok ==> Holds(files, ms + [m], captured) && Seen(seen, ms + [m])
    {
      hide Holds, Seen, Fits, Conflicting, Acceptable, Name, Total;
      ChecksAreFits(files, seen, ms, m, captured);
      if name in seen { return false; }
      var conflict := RejectsHierarchy(name, false);
      if conflict { return false; }
      SeenMore(seen, ms, m);
      HoldsSame(files, ms, m, captured);
      seen := seen + {name};
      ok := true;
    }

    /** One turn of either loop, after the checks of the archive format. */
    method Admit(ghost ms: seq<Item>, k: nat, m: Item) returns (ok: bool)
      requires k < |ms| && ms[k] == m && !m.refused && k < MAX_FILES && Valid(ms[..k])
      modifies this
      ensures ok <==> Acceptable(ms[..k + 1], root, captured)
      ensures ok ==> Valid(ms[..k + 1])
    {
      hide Holds, Seen, Fits, Acceptable, Name, Total, Readable;
      OneMoreMember(ms, k, root, captured);
      OneMoreTotal(ms, k);
      var named := CanonicalArchivePath(m.raw, m.isDirectory);
      if named.Err? { return false; }
      if named.value.None? {
        assert Fits(ms[..k], m) by { NamelessFits(ms[..k], m); }
        SeenMore(seen, ms[..k], m);
        assert seen + {} == seen;
        HoldsSame(files, ms[..k], m, captured);
        return true;
      }
      var name := named.value.value;
      if name == root {
        if !m.isDirectory { return false; }
      } else if !(root + "/" <= name) {
        return false;
      }
      if !m.usable { return false; }
      if m.isDirectory {
        ok := AddDirectory(m, name, ms[..k]);
      } else {
        ok := RecordFile(m, name, ms[..k]);
      }
    }
  }

  lemma OneMoreTotal(ms: seq<Item>, k: nat)
    requires k < |ms|
    ensures ms[..k + 1] == ms[..k] + [ms[k]] && Total(ms[..k + 1]) == Total(ms[..k]) + Size(ms[k])
  {
    assert ms[..k + 1][..k] == ms[..k];
  }

  lemma NamelessFits(ms: seq<Item>, m: Item)
    requires NameOf(m) == None
    ensures Fits(ms, m)
  {
  }

  function TarItems(members: seq<TarMember>): seq<Item> {
    seq(|members|, i requires 0 <= i < |members| => TarItem(members[i]))
  }

  function ZipItems(members: seq<ZipMember>): seq<Item> {
    seq(|members|, i requires 0 <= i < |members| => ZipItem(members[i]))
  }

  /** What a tar member must be by itself: under the root, and unless a directory a regular file of its stated size. */
  lemma TarSoundExactly(m: TarMember, root: string, captured: set<string>)
    ensures Sound(TarItem(m), root, captured) <==>
      && Name(m.name, m.isDirectory).Ok?
      && (Name(m.name, m.isDirectory).value.Some? ==>
            var v := Name(m.name, m.isDirectory).value.value;
            && (root + "/" <= v || (v == root && m.isDirectory))
            && (!m.isDirectory ==>
                  && m.isFile && m.stream.Some? && m.size == |m.stream.value| <= 536_870_912
                  && (v in captured ==> m.size <= 8_388_608)))
    ensures !m.isDirectory && m.stream.Some? ==>
      Entry(TarItem(m).bytes, true, TarItem(m).mode) ==
        ArchiveFile(|m.stream.value|, m.stream.value, Some(m.stream.value), Some(m.mode))
  {
    hide Name;
  }

  /**
   The same for ZIP: neither encrypted nor compressed in an unknown way, and of no other file type than
   the one its name says. The mode is the upper half of the attributes, and zero counts as none.
   */
  lemma ZipSoundExactly(m: ZipMember, root: string, captured: set<string>)
    ensures Sound(ZipItem(m), root, captured) <==>
      && !m.encrypted && m.compression in {0, 8} && Name(m.name, m.isDirectory).Ok?
      && (Name(m.name, m.isDirectory).value.Some? ==>
            var v := Name(m.name, m.isDirectory).value.value;
            && (root + "/" <= v || (v == root && m.isDirectory))
            && m.attributes / 0x1000_0000 % 16 in (if m.isDirectory then {0, 4} else {0, 8})
            && (!m.isDirectory ==>
                  && m.size == |m.stream| <= 536_870_912 && (v in captured ==> m.size <= 8_388_608)))
    ensures var mode := m.attributes / 0x1_0000 % 0x1_0000;
      Entry(ZipItem(m).bytes, false, ZipItem(m).mode) ==
        ArchiveFile(|m.stream|, m.stream, None, if mode == 0 then None else Some(mode))
  {
    FileTypeBits(m.attributes);
    hide Name, FileType;
  }

  lemma FileTypeBits(attributes: nat)
    ensures FileType(Mode(attributes)) == attributes / 0x1000_0000 % 16 * 0x1000
  {
    var top, rest := attributes / 0x1_0000_0000, attributes % 0x1_0000_0000;
    var kind, middle := rest / 0x1000_0000, rest % 0x1000_0000;
    UpperHalf(attributes, top, kind, middle / 0x1_0000, middle % 0x1_0000);
    UpperBits(top, kind, middle / 0x1_0000);
  }

  lemma UpperHalf(attributes: nat, top: nat, kind: nat, bits: nat, low: nat)
    requires attributes == top * 0x1_0000_0000 + kind * 0x1000_0000 + bits * 0x1_0000 + low
    requires kind < 16 && bits < 0x1000 && low < 0x1_0000
    ensures attributes / 0x1_0000 == top * 0x1_0000 + kind * 0x1000 + bits
    ensures attributes / 0x1000_0000 == top * 16 + kind
  {
  }

  lemma UpperBits(top: nat, kind: nat, bits: nat)
    requires kind < 16 && bits < 0x1000
    ensures (top * 0x1_0000 + kind * 0x1000 + bits) % 0x1_0000 == kind * 0x1000 + bits
    ensures (top * 16 + kind) % 16 == kind && (kind * 0x1000 + bits) / 0x1000 == kind
  {
  }

  /** Accepts exactly the member sequences that describe one bounded tree, and returns exactly its files. */
  method InspectTar(members: seq<TarMember>, captured: set<string>, root: string)
    returns (r: Result<map<string, ArchiveFile>, ()>)
    ensures r.Ok? <==> Acceptable(TarItems(members), root, captured)
    ensures r.Ok? ==> Holds(r.value, TarItems(members), captured)
  {
    hide Acceptable, Holds, Seen, Total;
    ghost var ms := TarItems(members);
    var inspector := new Inspector(root, captured);
    var count := 0;
    assert ms[..0] == [];
    for k := 0 to |members|
      invariant count == k && inspector.Valid(ms[..k]) && inspector.root == root && inspector.captured == captured
    {
      count := count + 1;
      if count > MAX_FILES {
        AcceptableSize(ms, root, captured);
        return Err(());
      }
      var ok := inspector.Admit(ms, k, TarItem(members[k]));
      if !ok {
        if Acceptable(ms, root, captured) { PrefixAcceptable(ms, k + 1, root, captured); }
        return Err(());
      }
    }
    assert ms[..|members|] == ms;
    r := Ok(inspector.files);
  }

  method InspectZip(members: seq<ZipMember>, captured: set<string>, root: string)
    returns (r: Result<map<string, ArchiveFile>, ()>)
    ensures r.Ok? <==> Acceptable(ZipItems(members), root, captured)
    ensures r.Ok? ==> Holds(r.value, ZipItems(members), captured)
  {
    hide Acceptable, Holds, Seen, Total;
    ghost var ms := ZipItems(members);
    AcceptableSize(ms, root, captured);
    var inspector := new Inspector(root, captured);
    if |members| > MAX_FILES { return Err(()); }
    assert ms[..0] == [];
    for k := 0 to |members|
      invariant inspector.Valid(ms[..k]) && inspector.root == root && inspector.captured == captured
    {
      var m := members[k];
      if m.encrypted || (m.compression != STORED && m.compression != DEFLATED) {
        assert ms[k].refused;
        AcceptableSound(ms, k, root, captured);
        return Err(());
      }
      var ok := inspector.Admit(ms, k, ZipItem(m));
      if !ok {
        if Acceptable(ms, root, captured) { PrefixAcceptable(ms, k + 1, root, captured); }
        return Err(());
      }
    }
    assert ms[..|members|] == ms;
    r := Ok(inspector.files);
  }

  /** The bytes of all files together. */
  ghost function FileBytes(files: map<string, ArchiveFile>): nat
    decreases |files|
  {
    if files == map[] then 0
    else
      var n :| n in files;
      OneFewerKey(files, n);
      files[n].size + FileBytes(files - {n})
  }

  lemma {:induction false} FileBytesWithout(files: map<string, ArchiveFile>, k: string)
    requires k in files
    ensures FileBytes(files) == files[k].size + FileBytes(files - {k})
    decreases |files|
  {
    var n :| n in files && FileBytes(files) == files[n].size + FileBytes(files - {n});
    if n != k {
      OneFewerKey(files, n);
      FileBytesWithout(files - {n}, k);
      OneFewerKey(files, k);
      FileBytesWithout(files - {k}, n);
      assert files - {n} - {k} == files - {k} - {n};
    }
  }

  lemma HoldsFront(files: map<string, ArchiveFile>, ms: seq<Item>, captured: set<string>)
    requires ms != [] && Holds(files, ms, captured) && AllCompatible(ms)
    ensures var m := ms[|ms| - 1];
      if IsFile(m) then
        NameOf(m).value in files && files[NameOf(m).value].size == Size(m) &&
        Holds(files - {NameOf(m).value}, ms[..|ms| - 1], captured)
      else Size(m) == 0 && Holds(files, ms[..|ms| - 1], captured)
  {
    var n := |ms| - 1;
    var front, m := ms[..n], ms[n];
    hide Name, Above, Entry;
    assert forall i :: 0 <= i < n ==> front[i] == ms[i];
    forall i | 0 <= i < n && IsFile(front[i]) ensures IsFile(m) ==> NameOf(front[i]) != NameOf(m) {
      assert Compatible(ms[i], ms[n]);
    }
    hide Compatible;
    forall name | name in files && !(IsFile(m) && NameOf(m) == Some(name)) ensures ListedFile(front, name) {
      ListedEarlier(ms, name);
    }
    assert IsFile(m) ==> files[NameOf(m).value].size == Size(m) by {
      EntrySize(m.bytes, IsFile(m) && NameOf(m).value in captured, m.mode);
    }
  }

  lemma EntrySize(bytes: seq<Byte>, capture: bool, mode: Option<nat>)
    ensures Entry(bytes, capture, mode).size == |bytes|
  {
  }

  lemma ListedEarlier(ms: seq<Item>, name: string)
    requires ms != [] && ListedFile(ms, name)
    requires !(IsFile(ms[|ms| - 1]) && NameOf(ms[|ms| - 1]) == Some(name))
    ensures ListedFile(ms[..|ms| - 1], name)
  {
    var i :| 0 <= i < |ms| && IsFile(ms[i]) && NameOf(ms[i]) == Some(name);
    assert ms[..|ms| - 1][i] == ms[i];
  }

  lemma {:induction false} FileBytesAreTotal(files: map<string, ArchiveFile>, ms: seq<Item>, captured: set<string>)
    requires Holds(files, ms, captured) && AllCompatible(ms)
    ensures FileBytes(files) == Total(ms)
    decreases |ms|
  {
    if ms == [] {
      assert files == map[];
    } else {
      var m, front := ms[|ms| - 1], ms[..|ms| - 1];
      HoldsFront(files, ms, captured);
      assert AllCompatible(front) by {
        forall i, j | 0 <= i < j < |front| ensures Compatible(front[i], front[j]) { assert Compatible(ms[i], ms[j]); }
      }
      hide Holds, Compatible, AllCompatible, IsFile, Size, Name;
      if IsFile(m) {
        FileBytesWithout(files, NameOf(m).value);
        FileBytesAreTotal(files - {NameOf(m).value}, front, captured);
      } else {
        FileBytesAreTotal(files, front, captured);
      }
    }
  }

  /**
   What acceptance means for the files: a tree of canonical paths that lead strictly below where the
   root leads, none above any member, within the count and byte bounds, each with its true size.
   */
  lemma AcceptedIsTree(ms: seq<Item>, files: map<string, ArchiveFile>, root: string, captured: set<string>)
    requires Acceptable(ms, root, captured) && Holds(files, ms, captured)
    ensures |files| <= MAX_FILES && FileBytes(files) <= MAX_BYTES
    ensures forall f :: f in files ==>
      && Canonical(f) && Above(root, f) && files[f].size == |files[f].hashed| <= MAX_BYTES
      && files[f].content == if f in captured then Some(files[f].hashed) else None
    ensures forall f :: f in files ==>
      && Walk([], Split(root)) == Some(Split(root)) && Walk([], Split(f)) == Some(Split(f)) && Split(root) < Split(f)
    ensures forall f, i :: f in files && 0 <= i < |ms| && NameOf(ms[i]).Some? ==> !Above(f, NameOf(ms[i]).value)
  {
    FileBytesAreTotal(files, ms, captured);
    FewerFiles(ms, files);
    forall f | f in files
      ensures Canonical(f) && Above(root, f) && files[f].size == |files[f].hashed| <= MAX_BYTES
      ensures files[f].content == if f in captured then Some(files[f].hashed) else None
    {
      var i :| 0 <= i < |ms| && IsFile(ms[i]) && NameOf(ms[i]) == Some(f);
      assert Sound(ms[i], root, captured);
      AcceptedIsCanonical(ms[i].raw, false);
    }
    hide Name, Sound, Holds;
    forall f | f in files
      ensures Walk([], Split(root)) == Some(Split(root)) && Walk([], Split(f)) == Some(Split(f))
      ensures Split(root) < Split(f)
    {
      AboveLeadsBelow(root, f);
    }
    forall f, j | f in files && 0 <= j < |ms| && NameOf(ms[j]).Some? ensures !Above(f, NameOf(ms[j]).value) {
      assert ListedFile(ms, f) by { HeldIsListed(files, ms, captured, f); }
      var i :| 0 <= i < |ms| && IsFile(ms[i]) && NameOf(ms[i]) == Some(f);
      if i < j { assert Compatible(ms[i], ms[j]); } else if j < i { assert Compatible(ms[j], ms[i]); }
    }
  }

  lemma HeldIsListed(files: map<string, ArchiveFile>, ms: seq<Item>, captured: set<string>, f: string)
    requires Holds(files, ms, captured) && f in files
    ensures ListedFile(ms, f)
  {
  }

  lemma {:induction false} FewerFiles(ms: seq<Item>, files: map<string, ArchiveFile>)
    requires forall n :: n in files ==> ListedFile(ms, n)
    ensures |files| <= |ms|
  {
    var named := set i | 0 <= i < |ms| && IsFile(ms[i]) :: NameOf(ms[i]).value;
    forall n | n in files ensures n in named {
      var i :| 0 <= i < |ms| && IsFile(ms[i]) && NameOf(ms[i]) == Some(n);
    }
    SubsetSize(files.Keys, named);
    NamesBound(ms);
  }

  lemma {:induction false} NamesBound(ms: seq<Item>)
    ensures |set i | 0 <= i < |ms| && IsFile(ms[i]) :: NameOf(ms[i]).value| <= |ms|
  {
    var all := set i | 0 <= i < |ms| && IsFile(ms[i]) :: NameOf(ms[i]).value;
    if ms == [] {
      assert all == {};
    } else {
      var front := ms[..|ms| - 1];
      var before := set i | 0 <= i < |front| && IsFile(front[i]) :: NameOf(front[i]).value;
      NamesBound(front);
      var last := ms[|ms| - 1];
      var extra := if IsFile(last) then {NameOf(last).value} else {};
      assert all <= before + extra by {
        forall n | n in all ensures n in before + extra {
          var i :| 0 <= i < |ms| && IsFile(ms[i]) && NameOf(ms[i]).value == n;
          if i < |front| { assert front[i] == ms[i]; }
        }
      }
      SubsetSize(all, before + extra);
    }
  }

  lemma {:induction false} TotalAppend(a: seq<Item>, b: seq<Item>)
    ensures Total(a + b) == Total(a) + Total(b)
  {
    if b == [] {
      assert a + b == a;
    } else {
      TotalAppend(a, b[..|b| - 1]);
      assert (a + b)[..|a + b| - 1] == a + b[..|b| - 1];
    }
  }

  lemma NeighboursSwap(a: seq<Item>, x: Item, y: Item, b: seq<Item>, root: string, captured: set<string>)
    requires Acceptable(a + [x, y] + b, root, captured)
    ensures Acceptable(a + [y, x] + b, root, captured)
  {
    var ms, ms' := a + [x, y] + b, a + [y, x] + b;
    TotalAppend(a + [x, y], b);
    TotalAppend(a + [y, x], b);
    TotalAppend(a, [x, y]);
    TotalAppend(a, [y, x]);
    assert [x, y][..1] == [x] && [y, x][..1] == [y] && [x][..0] == [] && [y][..0] == [];
    hide Sound, Compatible, Total;
    forall i | 0 <= i < |ms'| ensures Sound(ms'[i], root, captured) {
      SwappedAt(a, x, y, b, i);
      assert Sound(ms[Swapped(|a|, i)], root, captured);
    }
    forall i, j | 0 <= i < j < |ms'| ensures Compatible(ms'[i], ms'[j]) {
      var i', j' := Swapped(|a|, i), Swapped(|a|, j);
      SwappedAt(a, x, y, b, i);
      SwappedAt(a, x, y, b, j);
      CompatibleSymmetric(ms'[i], ms'[j]);
      if i' < j' { assert Compatible(ms[i'], ms[j']); } else { assert Compatible(ms[j'], ms[i']); }
    }
  }

  lemma SwappedAt(a: seq<Item>, x: Item, y: Item, b: seq<Item>, i: nat)
    requires i < |a| + 2 + |b|
    ensures (a + [y, x] + b)[i] == (a + [x, y] + b)[Swapped(|a|, i)]
  {
  }

  function Swapped(n: nat, i: nat): nat {
    if i == n then n + 1 else if i == n + 1 then n else i
  }

  lemma CompatibleSymmetric(a: Item, b: Item)
    ensures Compatible(a, b) == Compatible(b, a)
  {
  }

  lemma {:induction false} MoveToFront(
    pre: seq<Item>, ms: seq<Item>, i: nat, post: seq<Item>, root: string, captured: set<string>)
    requires i < |ms| && Acceptable(pre + ms + post, root, captured)
    ensures Acceptable(pre + ([ms[i]] + ms[..i] + ms[i + 1..]) + post, root, captured)
    decreases i
  {
    hide Acceptable;
    if i == 0 {
      assert [ms[0]] + ms[..0] + ms[1..] == ms;
    } else {
      var a, x, y, b := pre + ms[..i - 1], ms[i - 1], ms[i], ms[i + 1..] + post;
      assert pre + ms + post == a + [x, y] + b;
      NeighboursSwap(a, x, y, b, root, captured);
      var swapped := ms[i - 1 := y][i := x];
      assert a + [y, x] + b == pre + swapped + post;
      MoveToFront(pre, swapped, i - 1, post, root, captured);
      assert [swapped[i - 1]] + swapped[..i - 1] + swapped[i..] == [ms[i]] + ms[..i] + ms[i + 1..];
    }
  }

  lemma PickFirst(ms: seq<Item>, ms': seq<Item>) returns (i: nat)
    requires multiset(ms) == multiset(ms') && ms' != []
    ensures i < |ms| && ms[i] == ms'[0] && multiset(ms[..i] + ms[i + 1..]) == multiset(ms'[1..])
  {
    var x := ms'[0];
    assert x in multiset(ms');
    i :| 0 <= i < |ms| && ms[i] == x;
    Multiplied(ms, i);
    Multiplied(ms', 0);
    assert ms'[..0] + ms'[1..] == ms'[1..];
    Cancel(multiset(ms[..i] + ms[i + 1..]), multiset(ms'[1..]), x);
  }

  lemma Cancel(a: multiset<Item>, b: multiset<Item>, x: Item)
    requires a + multiset{x} == b + multiset{x}
    ensures a == b
  {
    assert a == a + multiset{x} - multiset{x} && b == b + multiset{x} - multiset{x};
  }

  lemma Multiplied(ms: seq<Item>, i: nat)
    requires i < |ms|
    ensures multiset(ms) == multiset(ms[..i] + ms[i + 1..]) + multiset{ms[i]}
  {
    assert ms == ms[..i] + [ms[i]] + ms[i + 1..];
  }

  lemma NoneLeft(ms: seq<Item>)
    requires multiset(ms) == multiset{}
    ensures ms == []
  {
    assert |multiset(ms)| == |ms|;
  }

  lemma {:induction false} Reorder(pre: seq<Item>, ms: seq<Item>, ms': seq<Item>, root: string, captured: set<string>)
    requires multiset(ms) == multiset(ms') && Acceptable(pre + ms, root, captured)
    ensures Acceptable(pre + ms', root, captured)
    decreases |ms|
  {
    hide Acceptable;
    if ms' == [] {
      NoneLeft(ms);
    } else {
      var i := PickFirst(ms, ms');
      var x, rest := ms[i], ms[..i] + ms[i + 1..];
      assert pre + ms + [] == pre + ms;
      MoveToFront(pre, ms, i, [], root, captured);
      assert pre + ([x] + ms[..i] + ms[i + 1..]) + [] == (pre + [x]) + rest;
      Reorder(pre + [x], rest, ms'[1..], root, captured);
      assert (pre + [x]) + ms'[1..] == pre + ms';
    }
  }

  /** Acceptance depends on which members there are and how often, not on their order. */
  lemma OrderDoesNotMatter(ms: seq<Item>, ms': seq<Item>, root: string, captured: set<string>)
    requires multiset(ms) == multiset(ms')
    ensures Acceptable(ms, root, captured) <==> Acceptable(ms', root, captured)
  {
    hide Acceptable;
    assert [] + ms == ms && [] + ms' == ms';
    if Acceptable(ms, root, captured) { Reorder([], ms, ms', root, captured); }
    if Acceptable(ms', root, captured) { Reorder([], ms', ms, root, captured); }
  }
}
