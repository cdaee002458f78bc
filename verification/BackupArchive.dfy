/**
 The full-backup archive: written as a flat list of files with a manifest, extracted into a
 staging directory, and verified there. Hashing and the manifest encoding are parameters.
 */
module BackupArchive {
  import opened Common
  import Names
  import ChildEnv

  type Bytes = seq<nat>

  const DB := "state.db"
  const CONFIG := "config.yaml"
  const MANIFEST := "manifest.json"
  const FORMAT := "devstrap-full-backup"
  const VERSION := 1

  // ---------- entry names ----------

  function Split(s: string): (parts: seq<string>)
    ensures parts != []
    decreases |s|
  {
    var i := ChildEnv.IndexOf(s, '/');
    if i == |s| then [s] else [s[..i]] + Split(s[i + 1..])
  }

  function Joined(parts: seq<string>): string
    requires parts != []
  {
    if |parts| == 1 then parts[0] else parts[0] + "/" + Joined(parts[1..])
  }

  // Lexical cleaning of a relative path, component by component.
  function Normal(parts: seq<string>): seq<string>
  {
    if parts == [] then []
    else
      var before, p := Normal(parts[..|parts| - 1]), parts[|parts| - 1];
      if p == "" || p == "." then before
      else if p != ".." then before + [p]
      else if before != [] && before[|before| - 1] != ".." then before[..|before| - 1]
      else before + [".."]
  }

  function Clean(name: string): string
  {
    var n := Normal(Split(name));
    if n == [] then "." else Joined(n)
  }

  predicate Fixed(name: string)
  {
    name == DB || name == CONFIG || name == MANIFEST
  }

  predicate Plain(p: string)
  {
    p != "" && p != "." && p != ".."
  }

  function Sanitize(name: string): Option<string>
  {
    if name == "" || name[0] == '/' || '\\' in name then None
    else
      var clean := Clean(name);
      var parts := Split(clean);
      if exists i :: 0 <= i < |parts| && !Plain(parts[i]) then None
      else if |parts| == 1 && Fixed(clean) then Some(clean)
      else if |parts| == 2 && ("blobs/" <= clean || "keys/" <= clean) then Some(clean)
      else None
  }

  // A file name of a single component.
  predicate Leaf(s: string)
  {
    Plain(s) && '/' !in s && '\\' !in s
  }

  // The only places an archive may put a file.
  predicate InLayout(name: string)
  {
    || Fixed(name)
    || ("blobs/" <= name && Leaf(name[6..]))
    || ("keys/" <= name && Leaf(name[5..]))
  }

  lemma {:induction false} SplitParts(s: string)
    ensures forall i :: 0 <= i < |Split(s)| ==> '/' !in Split(s)[i]
    ensures '\\' !in s ==> forall i :: 0 <= i < |Split(s)| ==> '\\' !in Split(s)[i]
    decreases |s|
  {
    var i := ChildEnv.IndexOf(s, '/');
    if i < |s| {
      SplitParts(s[i + 1..]);
    }
  }

  lemma {:induction false} JoinedSplit(s: string)
    ensures Joined(Split(s)) == s
    decreases |s|
  {
    var i := ChildEnv.IndexOf(s, '/');
    if i < |s| {
      JoinedSplit(s[i + 1..]);
      JoinedMore(s[..i], Split(s[i + 1..]));
      Spliced(s, i);
    }
  }

  lemma Spliced(s: string, i: nat)
    requires i < |s| && s[i] == '/'
    ensures s[..i] + "/" + s[i + 1..] == s
  {
  }

  lemma JoinedMore(part: string, parts: seq<string>)
    requires parts != []
    ensures Joined([part] + parts) == part + "/" + Joined(parts)
  {
    assert ([part] + parts)[1..] == parts;
  }

  lemma SplitOne(s: string)
    requires '/' !in s
    ensures Split(s) == [s]
  {
  }

  lemma SplitMore(dir: string, rest: string)
    requires '/' !in dir
    ensures Split(dir + "/" + rest) == [dir] + Split(rest)
  {
    var s := dir + "/" + rest;
    assert s[|dir|] == '/' && forall j :: 0 <= j < |dir| ==> s[j] == dir[j];
    ChildEnv.IndexIs(s, '/', |dir|);
    assert s[..|dir|] == dir && s[|dir| + 1..] == rest;
  }

  lemma {:induction false} SplitJoined(parts: seq<string>)
    requires parts != [] && forall i :: 0 <= i < |parts| ==> '/' !in parts[i]
    ensures Split(Joined(parts)) == parts
    decreases |parts|
  {
    if |parts| == 1 {
      SplitOne(parts[0]);
    } else {
      SplitJoined(parts[1..]);
      SplitMore(parts[0], Joined(parts[1..]));
      assert parts == [parts[0]] + parts[1..];
    }
  }

  lemma {:induction false} NormalParts(parts: seq<string>)
    ensures forall p :: p in Normal(parts) ==> p == ".." || (p in parts && p != "" && p != ".")
    decreases |parts|
  {
    if parts != [] {
      NormalParts(parts[..|parts| - 1]);
    }
  }

  lemma CleanParts(name: string)
    requires '\\' !in name
    ensures forall i :: 0 <= i < |Split(Clean(name))| ==>
              '/' !in Split(Clean(name))[i] && '\\' !in Split(Clean(name))[i]
    ensures Joined(Split(Clean(name))) == Clean(name)
  {
    var parts := Split(name);
    SplitParts(name);
    JoinedSplit(Clean(name));
    NormalParts(parts);
    var n := Normal(parts);
    if n == [] {
      SplitOne(".");
    } else {
      forall i | 0 <= i < |n| ensures '/' !in n[i] && '\\' !in n[i] {
        assert n[i] in n;
        if n[i] != ".." {
          var j :| 0 <= j < |parts| && parts[j] == n[i];
        }
      }
      SplitJoined(n);
    }
  }

  // Whatever an entry is called, if it is accepted it lands in the layout, at most two deep.
  lemma SanitizedIsInLayout(name: string)
    requires Sanitize(name).Some?
    ensures InLayout(Sanitize(name).value)
  {
    var clean := Clean(name);
    var parts := Split(clean);
    CleanParts(name);
    if |parts| == 2 {
      assert parts[1..] == [parts[1]];
      assert clean == parts[0] + "/" + parts[1];
      var dir := if "blobs/" <= clean then "blobs" else "keys";
      assert clean[|dir|] == '/' && forall j :: 0 <= j < |dir| ==> clean[j] == dir[j];
      SameDir(parts[0], parts[1], dir, clean);
    }
  }

  lemma SameDir(a: string, b: string, dir: string, clean: string)
    requires clean == a + "/" + b && '/' !in a && '/' !in dir && dir + "/" <= clean
    ensures a == dir && clean[|dir| + 1..] == b
  {
    assert clean[|a|] == '/' && forall j :: 0 <= j < |a| ==> clean[j] == a[j];
    assert forall j :: 0 <= j <= |dir| ==> clean[j] == (dir + "/")[j];
    ChildEnv.IndexIs(clean, '/', |a|);
    ChildEnv.IndexIs(clean, '/', |dir|);
    assert clean[..|a|] == a;
    assert clean[..|dir|] == dir;
  }

  lemma {:induction false} PlainIsNormal(parts: seq<string>)
    requires forall i :: 0 <= i < |parts| ==> Plain(parts[i])
    ensures Normal(parts) == parts
    decreases |parts|
  {
    if parts != [] {
      PlainIsNormal(parts[..|parts| - 1]);
      assert parts == parts[..|parts| - 1] + [parts[|parts| - 1]];
    }
  }

  lemma TwoLevelIsClean(dir: string, leaf: string)
    requires Plain(dir) && '/' !in dir && Leaf(leaf)
    ensures Clean(dir + "/" + leaf) == dir + "/" + leaf && Split(dir + "/" + leaf) == [dir, leaf]
  {
    SplitOne(leaf);
    SplitMore(dir, leaf);
    assert [dir] + [leaf] == [dir, leaf];
    PlainIsNormal([dir, leaf]);
    assert [dir, leaf][1..] == [leaf] && Joined([leaf]) == leaf;
    assert Joined([dir, leaf]) == dir + "/" + leaf;
  }

  lemma TwoLevelHasNoEscape(dir: string, leaf: string)
    requires (dir == "blobs" || dir == "keys") && Leaf(leaf)
    ensures var name := dir + "/" + leaf; '\\' !in name && name[0] != '/'
  {
    assert '\\' !in dir && '\\' !in "/";
    assert (dir + "/" + leaf)[0] == dir[0];
  }

  lemma TwoLevelIsSanitized(dir: string, leaf: string)
    requires dir == "blobs" || dir == "keys"
    requires Leaf(leaf)
    ensures Sanitize(dir + "/" + leaf) == Some(dir + "/" + leaf)
  {
    TwoLevelIsClean(dir, leaf);
    TwoLevelHasNoEscape(dir, leaf);
    var name := dir + "/" + leaf;
    assert dir + "/" <= name;
    var parts := Split(Clean(name));
    assert parts == [dir, leaf] && Plain(parts[0]) && Plain(parts[1]);
  }

  lemma OneLevelIsClean(name: string)
    requires Leaf(name)
    ensures Clean(name) == name && Split(name) == [name]
  {
    SplitOne(name);
    PlainIsNormal([name]);
  }

  lemma OneLevelIsSanitized(name: string)
    requires Leaf(name) && Fixed(name)
    ensures Sanitize(name) == Some(name)
  {
    OneLevelIsClean(name);
    assert name[0] != '/' by { assert name[0] in name; }
  }

  lemma FixedNamesAreLeaves()
    ensures Leaf(DB) && Leaf(CONFIG) && Leaf(MANIFEST)
  {
  }

  // And the names of the layout are accepted as they are.
  lemma LayoutIsSanitized(name: string)
    requires InLayout(name)
    ensures Sanitize(name) == Some(name)
  {
    if Fixed(name) {
      FixedNamesAreLeaves();
      OneLevelIsSanitized(name);
    } else if "blobs/" <= name && Leaf(name[6..]) {
      TwoLevelIsSanitized("blobs", name[6..]);
      assert name == "blobs" + "/" + name[6..];
    } else {
      TwoLevelIsSanitized("keys", name[5..]);
      assert name == "keys" + "/" + name[5..];
    }
  }

  // One or two plain components, so it leads nowhere else.
  predicate Shallow(name: string)
  {
    && name != "" && name[0] != '/' && '\\' !in name
    && (forall i :: 0 <= i < |Split(name)| ==> Split(name)[i] !in {"", ".", ".."})
    && (|Split(name)| == 1 || (|Split(name)| == 2 && Split(name)[0] in {"blobs", "keys"}))
  }

  lemma LayoutIsShallow(name: string)
    requires InLayout(name)
    ensures Shallow(name)
  {
    if Fixed(name) {
      FixedNamesAreLeaves();
      OneLevelIsShallow(name);
    } else if "blobs/" <= name && Leaf(name[6..]) {
      TwoLevelIsShallow("blobs", name[6..]);
      assert name == "blobs" + "/" + name[6..];
    } else {
      TwoLevelIsShallow("keys", name[5..]);
      assert name == "keys" + "/" + name[5..];
    }
  }

  lemma OneLevelIsShallow(name: string)
    requires Leaf(name)
    ensures Shallow(name)
  {
    OneLevelIsClean(name);
    assert name[0] in name;
  }

  lemma TwoLevelIsShallow(dir: string, leaf: string)
    requires (dir == "blobs" || dir == "keys") && Leaf(leaf)
    ensures Shallow(dir + "/" + leaf)
  {
    TwoLevelIsClean(dir, leaf);
    TwoLevelHasNoEscape(dir, leaf);
  }

  // ---------- archives and stages ----------

  datatype Kind = Regular | Other

  datatype TarEntry = TarEntry(name: string, kind: Kind, content: Bytes)

  // `intact` is whether the archive reads to its end.
  datatype Archive = Archive(entries: seq<TarEntry>, intact: bool)

  datatype ManifestEntry = ManifestEntry(name: string, size: int, sha256: string)

  // `about` is what the manifest records besides: creation time, workspace, device, custody.
  datatype Manifest = Manifest(format: string, version: int, about: nat, entries: seq<ManifestEntry>,
                               required: seq<string>)

  // What the archive code stands on: where an entry name lands, SHA-256 in hex, and the
  // manifest's JSON form.
  datatype Codec = Codec(place: string -> Option<string>, sha: Bytes -> string,
                         encode: Manifest -> Bytes, parse: Bytes -> Option<Manifest>)
  {
    ghost predicate Lawful()
    {
      (forall n :: place(n) == Sanitize(n)) && RoundTrips()
    }

    ghost predicate RoundTrips()
    {
      place(MANIFEST) == Some(MANIFEST) && forall m :: parse(encode(m)) == Some(m)
    }
  }

  // Such codecs exist: any injective encoding has a parser. Here every list and every string
  // says how long it is; `rest` is what follows.
  function EncodeText(t: string, rest: Bytes): Bytes
  {
    [|t|] + seq(|t|, i requires 0 <= i < |t| => t[i] as nat) + rest
  }

  function EncodeInt(n: int, rest: Bytes): Bytes
  {
    if n < 0 then [1, -n] + rest else [0, n] + rest
  }

  function EncodeNames(names: seq<string>, rest: Bytes): Bytes
  {
    if names == [] then [0] + rest else [1] + EncodeText(names[0], EncodeNames(names[1..], rest))
  }

  function EncodeEntry(e: ManifestEntry, rest: Bytes): Bytes
  {
    EncodeText(e.name, EncodeInt(e.size, EncodeText(e.sha256, rest)))
  }

  function EncodeEntries(entries: seq<ManifestEntry>, rest: Bytes): Bytes
  {
    if entries == [] then [0] + rest else [1] + EncodeEntry(entries[0], EncodeEntries(entries[1..], rest))
  }

  function EncodeManifest(m: Manifest): Bytes
  {
    EncodeText(m.format, EncodeInt(m.version, [m.about] + EncodeEntries(m.entries, EncodeNames(m.required, []))))
  }

  ghost function ParseManifest(raw: Bytes): Option<Manifest>
  {
    if m :| EncodeManifest(m) == raw then Some(m) else None
  }

  lemma TextReads(s: string, t: string, a: Bytes, b: Bytes)
    requires EncodeText(s, a) == EncodeText(t, b)
    ensures s == t && a == b
  {
    var whole := EncodeText(s, a);
    assert |s| == whole[0] == |t|;
    forall i | 0 <= i < |s| ensures s[i] == t[i] {
      assert s[i] as nat == whole[1 + i] == t[i] as nat;
    }
    assert a == whole[1 + |s|..] == b;
  }

  lemma IntReads(m: int, n: int, a: Bytes, b: Bytes)
    requires EncodeInt(m, a) == EncodeInt(n, b)
    ensures m == n && a == b
  {
    var whole := EncodeInt(m, a);
    assert whole[0] == (if m < 0 then 1 else 0) == (if n < 0 then 1 else 0);
    assert a == whole[2..] == b;
  }

  lemma HeadReads(x: nat, y: nat, a: Bytes, b: Bytes)
    requires [x] + a == [y] + b
    ensures x == y && a == b
  {
    assert x == ([x] + a)[0] == y && a == ([x] + a)[1..] == b;
  }

  lemma NamesStart(names: seq<string>, rest: Bytes)
    ensures EncodeNames(names, rest) != [] && EncodeNames(names, rest)[0] == if names == [] then 0 else 1
  {
  }

  lemma EntriesStart(entries: seq<ManifestEntry>, rest: Bytes)
    ensures EncodeEntries(entries, rest) != [] && EncodeEntries(entries, rest)[0] == if entries == [] then 0 else 1
  {
  }

  lemma SameHeadAndTail<T>(s: seq<T>, t: seq<T>)
    requires s != [] && t != [] && s[0] == t[0] && s[1..] == t[1..]
    ensures s == t
  {
    assert s == [s[0]] + s[1..] && t == [t[0]] + t[1..];
  }

  lemma {:induction false} NamesRead(s: seq<string>, t: seq<string>, a: Bytes, b: Bytes)
    requires EncodeNames(s, a) == EncodeNames(t, b)
    ensures s == t && a == b
    decreases |s|
  {
    NamesStart(s, a);
    NamesStart(t, b);
    if s == [] {
      HeadReads(0, 0, a, b);
    } else {
      var x, y := EncodeNames(s[1..], a), EncodeNames(t[1..], b);
      HeadReads(1, 1, EncodeText(s[0], x), EncodeText(t[0], y));
      TextReads(s[0], t[0], x, y);
      NamesRead(s[1..], t[1..], a, b);
      SameHeadAndTail(s, t);
    }
  }

  lemma EntryReads(e: ManifestEntry, f: ManifestEntry, a: Bytes, b: Bytes)
    requires EncodeEntry(e, a) == EncodeEntry(f, b)
    ensures e == f && a == b
  {
    var x, y := EncodeText(e.sha256, a), EncodeText(f.sha256, b);
    TextReads(e.name, f.name, EncodeInt(e.size, x), EncodeInt(f.size, y));
    IntReads(e.size, f.size, x, y);
    TextReads(e.sha256, f.sha256, a, b);
  }

  lemma FirstEntryReads(s: seq<ManifestEntry>, t: seq<ManifestEntry>, a: Bytes, b: Bytes)
    requires EncodeEntries(s, a) == EncodeEntries(t, b) && s != [] && t != []
    ensures s[0] == t[0] && EncodeEntries(s[1..], a) == EncodeEntries(t[1..], b)
  {
    var x, y := EncodeEntries(s[1..], a), EncodeEntries(t[1..], b);
    HeadReads(1, 1, EncodeEntry(s[0], x), EncodeEntry(t[0], y));
    EntryReads(s[0], t[0], x, y);
  }

  lemma {:induction false} EntriesRead(s: seq<ManifestEntry>, t: seq<ManifestEntry>, a: Bytes, b: Bytes)
    requires EncodeEntries(s, a) == EncodeEntries(t, b)
    ensures s == t && a == b
    decreases |s|
  {
    EntriesStart(s, a);
    EntriesStart(t, b);
    if s == [] {
      HeadReads(0, 0, a, b);
    } else {
      FirstEntryReads(s, t, a, b);
      EntriesRead(s[1..], t[1..], a, b);
      SameHeadAndTail(s, t);
    }
  }

  lemma ManifestReads(m: Manifest, n: Manifest)
    requires EncodeManifest(m) == EncodeManifest(n)
    ensures m == n
  {
    var m4, n4 := EncodeNames(m.required, []), EncodeNames(n.required, []);
    var m3, n3 := EncodeEntries(m.entries, m4), EncodeEntries(n.entries, n4);
    TextReads(m.format, n.format, EncodeInt(m.version, [m.about] + m3), EncodeInt(n.version, [n.about] + n3));
    IntReads(m.version, n.version, [m.about] + m3, [n.about] + n3);
    HeadReads(m.about, n.about, m3, n3);
    EntriesRead(m.entries, n.entries, m4, n4);
    NamesRead(m.required, n.required, [], []);
  }

  lemma LawfulCodecExists(sha: Bytes -> string) returns (c: Codec)
    ensures c.Lawful() && c.sha == sha
  {
    c := Codec(Sanitize, sha, EncodeManifest, ParseManifest);
    LayoutIsSanitized(MANIFEST);
    forall m ensures c.parse(c.encode(m)) == Some(m) {
      var n := ParseManifest(EncodeManifest(m)).value;
      ManifestReads(n, m);
    }
  }

  // The staging directory: files by their path below it.
  type Stage = map<string, Bytes>

  predicate EqualFold(a: string, b: string)
  {
    ChildEnv.Upper(a) == ChildEnv.Upper(b)
  }

  // Every entry is a regular file with an acceptable name, and no two land on one path.
  predicate Extractable(c: Codec, entries: seq<TarEntry>)
  {
    && (forall i :: 0 <= i < |entries| ==> entries[i].kind == Regular && c.place(entries[i].name).Some?)
    && forall i, j :: 0 <= i < j < |entries| ==> c.place(entries[i].name) != c.place(entries[j].name)
  }

  // The stage holds exactly the files of these entries.
  predicate Holds(c: Codec, stage: Stage, entries: seq<TarEntry>)
    requires Extractable(c, entries)
  {
    && (forall i :: 0 <= i < |entries| ==>
          c.place(entries[i].name).value in stage && stage[c.place(entries[i].name).value] == entries[i].content)
    && forall f :: f in stage ==> exists i :: 0 <= i < |entries| && c.place(entries[i].name) == Some(f)
  }

  method ExtractBackupTar(c: Codec, a: Archive) returns (r: Option<Stage>)
    ensures r.Some? <==> a.intact && Extractable(c, a.entries)
    ensures r.Some? ==> Holds(c, r.value, a.entries)
  {
    var stage: Stage := map[];
    for i := 0 to |a.entries|
      invariant Extractable(c, a.entries[..i]) && Holds(c, stage, a.entries[..i])
    {
      var hdr := a.entries[i];
      assert a.entries[..i + 1] == a.entries[..i] + [hdr];
      var name := c.place(hdr.name);
      if name == None || hdr.kind != Regular {
        assert !Extractable(c, a.entries);
        return None;
      }
      // Exclusive create.
      if name.value in stage {
        return None;
      }
      HoldsOneMore(c, stage, a.entries[..i], hdr);
      stage := stage[name.value := hdr.content];
    }
    assert a.entries[..|a.entries|] == a.entries;
    if !a.intact {
      return None;
    }
    r := Some(stage);
  }

  lemma ExtractableOneMore(c: Codec, stage: Stage, entries: seq<TarEntry>, e: TarEntry)
    requires Extractable(c, entries) && Holds(c, stage, entries)
    requires e.kind == Regular && c.place(e.name).Some? && c.place(e.name).value !in stage
    ensures Extractable(c, entries + [e])
  {
    assert forall i :: 0 <= i < |entries| ==> (entries + [e])[i] == entries[i];
  }

  lemma HoldsOneMore(c: Codec, stage: Stage, entries: seq<TarEntry>, e: TarEntry)
    requires Extractable(c, entries) && Holds(c, stage, entries)
    requires e.kind == Regular && c.place(e.name).Some? && c.place(e.name).value !in stage
    ensures Extractable(c, entries + [e]) && Holds(c, stage[c.place(e.name).value := e.content], entries + [e])
  {
    ExtractableOneMore(c, stage, entries, e);
    var more, after := entries + [e], stage[c.place(e.name).value := e.content];
    assert forall i :: 0 <= i < |entries| ==> more[i] == entries[i];
    forall f | f in after ensures exists i :: 0 <= i < |more| && c.place(more[i].name) == Some(f) {
      if f in stage {
        var i :| 0 <= i < |entries| && c.place(entries[i].name) == Some(f);
        assert more[i] == entries[i];
      } else {
        assert c.place(more[|entries|].name) == Some(f);
      }
    }
  }

  // What verification establishes, in no particular order.
  predicate EntryVerified(c: Codec, stage: Stage, e: ManifestEntry)
  {
    && c.place(e.name).Some? && c.place(e.name) != Some(MANIFEST)
    && var f := c.place(e.name).value;
       f in stage && |stage[f]| == e.size && EqualFold(c.sha(stage[f]), e.sha256)
  }

  predicate NoDuplicates(c: Codec, entries: seq<ManifestEntry>)
  {
    forall i, j :: 0 <= i < j < |entries| ==> c.place(entries[i].name) != c.place(entries[j].name)
  }

  predicate ListedIn(c: Codec, entries: seq<ManifestEntry>, f: string)
  {
    exists i :: 0 <= i < |entries| && c.place(entries[i].name) == Some(f)
  }

  predicate Verified(c: Codec, stage: Stage, m: Manifest)
  {
    && m.format == FORMAT && m.version == VERSION
    && (forall i :: 0 <= i < |m.entries| ==> EntryVerified(c, stage, m.entries[i]))
    && NoDuplicates(c, m.entries)
    && (forall i :: 0 <= i < |m.required| ==> ListedIn(c, m.entries, m.required[i]))
    && forall f :: f in stage ==> f == MANIFEST || ListedIn(c, m.entries, f)
  }

  method VerifyBackupManifest(c: Codec, stage: Stage) returns (r: Option<Manifest>)
    ensures r.Some? <==>
            MANIFEST in stage && c.parse(stage[MANIFEST]).Some? && Verified(c, stage, c.parse(stage[MANIFEST]).value)
    ensures r.Some? ==> r == c.parse(stage[MANIFEST])
  {
    if MANIFEST !in stage {
      return None;
    }
    var parsed := c.parse(stage[MANIFEST]);
    if parsed == None {
      return None;
    }
    var m := parsed.value;
    if m.format != FORMAT || m.version != VERSION {
      return None;
    }
    var listed := CheckEntries(c, stage, m.entries);
    if listed == None {
      return None;
    }
    for i := 0 to |m.required|
      invariant forall j :: 0 <= j < i ==> ListedIn(c, m.entries, m.required[j])
    {
      if m.required[i] !in listed.value {
        return None;
      }
    }
    var unlisted := FindUnlisted(stage, listed.value);
    if unlisted.Some? {
      return None;
    }
    r := Some(m);
  }

  method CheckEntries(c: Codec, stage: Stage, entries: seq<ManifestEntry>) returns (listed: Option<set<string>>)
    ensures listed.Some? <==>
            (forall i :: 0 <= i < |entries| ==> EntryVerified(c, stage, entries[i])) && NoDuplicates(c, entries)
    ensures listed.Some? ==> forall f :: f in listed.value <==> ListedIn(c, entries, f)
  {
    var seen: set<string> := {};
    for i := 0 to |entries|
      invariant forall j :: 0 <= j < i ==> EntryVerified(c, stage, entries[j])
      invariant NoDuplicates(c, entries[..i])
      invariant forall f :: f in seen <==> ListedIn(c, entries[..i], f)
    {
      var e := entries[i];
      ListedOneMore(c, entries, i);
      var name := c.place(e.name);
      if name == None || name.value == MANIFEST {
        return None;
      }
      if name.value in seen {
        return None;
      }
      seen := seen + {name.value};
      if name.value !in stage {
        return None;
      }
      if |stage[name.value]| != e.size || !EqualFold(c.sha(stage[name.value]), e.sha256) {
        return None;
      }
    }
    assert entries[..|entries|] == entries;
    listed := Some(seen);
  }

  lemma ListedOneMore(c: Codec, entries: seq<ManifestEntry>, i: nat)
    requires i < |entries|
    ensures forall f :: ListedIn(c, entries[..i + 1], f) <==>
            ListedIn(c, entries[..i], f) || c.place(entries[i].name) == Some(f)
    ensures c.place(entries[i].name).Some? && ListedIn(c, entries[..i], c.place(entries[i].name).value) ==>
              !NoDuplicates(c, entries)
    ensures NoDuplicates(c, entries[..i]) && c.place(entries[i].name).Some?
            && !ListedIn(c, entries[..i], c.place(entries[i].name).value) ==>
              NoDuplicates(c, entries[..i + 1])
  {
    var less, more := entries[..i], entries[..i + 1];
    assert more == less + [entries[i]];
    forall f ensures ListedIn(c, more, f) <==> ListedIn(c, less, f) || c.place(entries[i].name) == Some(f) {
      if ListedIn(c, less, f) {
        var j :| 0 <= j < i && c.place(less[j].name) == Some(f);
        assert more[j] == less[j];
      }
      if c.place(entries[i].name) == Some(f) { assert more[i] == entries[i]; }
    }
  }

  method FindUnlisted(stage: Stage, listed: set<string>) returns (r: Option<string>)
    ensures r == None <==> forall f :: f in stage ==> f == MANIFEST || f in listed
  {
    var todo := stage.Keys;
    while todo != {}
      invariant todo <= stage.Keys && forall f :: f in stage && f !in todo ==> f == MANIFEST || f in listed
      decreases |todo|
    {
      var f :| f in todo;
      if f != MANIFEST && f !in listed {
        return Some(f);
      }
      todo := todo - {f};
    }
    r := None;
  }

  // Nothing an archive extracts lies outside the layout.
  lemma ExtractedIsInLayout(c: Codec, entries: seq<TarEntry>, stage: Stage, f: string)
    requires c.Lawful() && Extractable(c, entries) && Holds(c, stage, entries) && f in stage
    ensures InLayout(f)
  {
    var i :| 0 <= i < |entries| && c.place(entries[i].name) == Some(f);
    SanitizedIsInLayout(entries[i].name);
  }

  // An accepted stage holds exactly the listed files and the manifest, each with its recorded
  // size and digest, and the required files among them.
  lemma AcceptedStage(c: Codec, stage: Stage, m: Manifest, f: string)
    requires MANIFEST in stage && Verified(c, stage, m)
    ensures f in stage <==> f == MANIFEST || ListedIn(c, m.entries, f)
    ensures f in stage && f != MANIFEST ==>
              exists i :: 0 <= i < |m.entries| && c.place(m.entries[i].name) == Some(f)
                          && |stage[f]| == m.entries[i].size && EqualFold(c.sha(stage[f]), m.entries[i].sha256)
    ensures f in m.required ==> f in stage
    ensures m.format == FORMAT && m.version == VERSION
    ensures forall i, j :: 0 <= i < j < |m.entries| ==> c.place(m.entries[i].name) != c.place(m.entries[j].name)
  {
    if ListedIn(c, m.entries, f) {
      var j :| 0 <= j < |m.entries| && c.place(m.entries[j].name) == Some(f);
      assert EntryVerified(c, stage, m.entries[j]);
    }
    if f in m.required {
      var k :| 0 <= k < |m.required| && m.required[k] == f;
      assert ListedIn(c, m.entries, m.required[k]);
    }
  }

  // ---------- the writer ----------

  // The hash a blob reference names.
  function EnvBlobHash(r: string): Option<string>
  {
    if "age_blob:" <= r && |r| > 9 && '/' !in r[9..] && '\\' !in r[9..] then Some(r[9..]) else None
  }

  // What the writer finds: the database snapshot, the config if there is one, and the blob and
  // key files by name.
  datatype Sources = Sources(db: Option<Bytes>, config: Option<Bytes>, blobs: map<string, Bytes>,
                             keys: map<string, Bytes>)

  datatype Item = Item(name: string, content: Bytes)

  function Join(dir: string, leaf: string): string
  {
    Clean(dir + "/" + leaf)
  }

  // The blob is there and matches its content address.
  predicate BlobReadable(c: Codec, src: Sources, r: string)
  {
    && EnvBlobHash(r).Some?
    && var hash := EnvBlobHash(r).value;
       hash + ".age" in src.blobs && EqualFold(c.sha(src.blobs[hash + ".age"]), hash)
  }

  predicate Readable(c: Codec, src: Sources, refs: seq<string>, keys: seq<string>)
  {
    && src.db.Some?
    && (forall i :: 0 <= i < |refs| ==> BlobReadable(c, src, refs[i]))
    && forall i :: 0 <= i < |keys| ==> keys[i] in src.keys
  }

  function BlobItem(c: Codec, src: Sources, r: string): Item
    requires BlobReadable(c, src, r)
  {
    var file := EnvBlobHash(r).value + ".age";
    Item(Join("blobs", file), src.blobs[file])
  }

  function BlobItems(c: Codec, src: Sources, refs: seq<string>): (items: seq<Item>)
    requires forall i :: 0 <= i < |refs| ==> BlobReadable(c, src, refs[i])
    ensures |items| == |refs|
  {
    seq(|refs|, i requires 0 <= i < |refs| => BlobItem(c, src, refs[i]))
  }

  lemma BlobItemsOneMore(c: Codec, src: Sources, refs: seq<string>, n: nat)
    requires n < |refs| && forall i :: 0 <= i <= n ==> BlobReadable(c, src, refs[i])
    ensures BlobItems(c, src, refs[..n + 1]) == BlobItems(c, src, refs[..n]) + [BlobItem(c, src, refs[n])]
  {
  }

  function KeyItems(src: Sources, keys: seq<string>): (items: seq<Item>)
    requires forall i :: 0 <= i < |keys| ==> keys[i] in src.keys
    ensures |items| == |keys|
  {
    seq(|keys|, i requires 0 <= i < |keys| => Item(Join("keys", keys[i]), src.keys[keys[i]]))
  }

  function CoreItems(src: Sources): seq<Item>
    requires src.db.Some?
  {
    [Item(DB, src.db.value)] + if src.config.Some? then [Item(CONFIG, src.config.value)] else []
  }

  // Everything the archive lists, in order.
  function Items(c: Codec, src: Sources, refs: seq<string>, keys: seq<string>): seq<Item>
    requires Readable(c, src, refs, keys)
  {
    CoreItems(src) + BlobItems(c, src, refs) + KeyItems(src, keys)
  }

  function Listing(c: Codec, items: seq<Item>): (entries: seq<ManifestEntry>)
    ensures |entries| == |items|
  {
    seq(|items|, i requires 0 <= i < |items| =>
      ManifestEntry(items[i].name, |items[i].content|, c.sha(items[i].content)))
  }

  function Tarred(items: seq<Item>): (entries: seq<TarEntry>)
    ensures |entries| == |items|
  {
    seq(|items|, i requires 0 <= i < |items| => TarEntry(items[i].name, Regular, items[i].content))
  }

  function Signed(c: Codec, m: Manifest, items: seq<Item>): Manifest
  {
    m.(entries := Listing(c, items))
  }

  function ArchiveOf(c: Codec, m: Manifest, items: seq<Item>): Archive
  {
    Archive(Tarred(items) + [TarEntry(MANIFEST, Regular, c.encode(Signed(c, m, items)))], true)
  }

  lemma OneMoreItem(c: Codec, items: seq<Item>, item: Item)
    ensures Tarred(items + [item]) == Tarred(items) + [TarEntry(item.name, Regular, item.content)]
    ensures Listing(c, items + [item]) == Listing(c, items)
            + [ManifestEntry(item.name, |item.content|, c.sha(item.content))]
  {
  }

  // The archive while it is being written: what is on the tar and what the manifest lists.
  class Writer {
    const c: Codec
    var tarred: seq<TarEntry>
    var listed: seq<ManifestEntry>
    ghost var items: seq<Item>

    constructor (c: Codec)
      ensures this.c == c && items == [] && Consistent()
    {
      this.c := c;
      tarred, listed, items := [], [], [];
    }

    ghost predicate Consistent()
      reads this
    {
      tarred == Tarred(items) && listed == Listing(c, items)
    }

    method Add(name: string, content: Bytes)
      requires Consistent()
      modifies this
      ensures Consistent() && items == old(items) + [Item(name, content)]
    {
      OneMoreItem(c, items, Item(name, content));
      items := items + [Item(name, content)];
      tarred := tarred + [TarEntry(name, Regular, content)];
      listed := listed + [ManifestEntry(name, |content|, c.sha(content))];
    }

    method AddBlob(src: Sources, r: string) returns (ok: bool)
      requires Consistent()
      modifies this
      ensures Consistent() && (ok <==> BlobReadable(c, src, r))
      ensures ok ==> items == old(items) + [BlobItem(c, src, r)]
    {
      var hash := EnvBlobHash(r);
      if hash == None {
        return false;
      }
      var file := hash.value + ".age";
      if file !in src.blobs {
        return false;
      }
      Add(Join("blobs", file), src.blobs[file]);
      ok := EqualFold(listed[|listed| - 1].sha256, hash.value);
    }

    method AddBlobs(src: Sources, refs: seq<string>) returns (ok: bool)
      requires Consistent()
      modifies this
      ensures Consistent()
      ensures ok <==> forall i :: 0 <= i < |refs| ==> BlobReadable(c, src, refs[i])
      ensures ok ==> items == old(items) + BlobItems(c, src, refs)
    {
      for n := 0 to |refs|
        invariant Consistent() && forall i :: 0 <= i < n ==> BlobReadable(c, src, refs[i])
        invariant items == old(items) + BlobItems(c, src, refs[..n])
      {
        ok := AddBlob(src, refs[n]);
        if !ok {
          return;
        }
        BlobItemsOneMore(c, src, refs, n);
      }
      assert refs[..|refs|] == refs;
      ok := true;
    }

    method AddKeys(src: Sources, keys: seq<string>) returns (ok: bool)
      requires Consistent()
      modifies this
      ensures Consistent()
      ensures ok <==> forall i :: 0 <= i < |keys| ==> keys[i] in src.keys
      ensures ok ==> items == old(items) + KeyItems(src, keys)
    {
      for n := 0 to |keys|
        invariant Consistent() && forall i :: 0 <= i < n ==> keys[i] in src.keys
        invariant items == old(items) + KeyItems(src, keys[..n])
      {
        if keys[n] !in src.keys {
          return false;
        }
        Add(Join("keys", keys[n]), src.keys[keys[n]]);
        assert KeyItems(src, keys[..n + 1]) == KeyItems(src, keys[..n])
          + [Item(Join("keys", keys[n]), src.keys[keys[n]])];
      }
      assert keys[..|keys|] == keys;
      ok := true;
    }
  }

  lemma ReadableInAnyOrder(c: Codec, src: Sources, refs: seq<string>, a: seq<string>, b: seq<string>)
    requires multiset(a) == multiset(b)
    ensures Readable(c, src, refs, a) <==> Readable(c, src, refs, b)
  {
    Names.PermutationIsDistinct(a, b);
    assert (forall i :: 0 <= i < |a| ==> a[i] in b) && forall i :: 0 <= i < |b| ==> b[i] in a;
  }

  method WriteBackupTar(c: Codec, src: Sources, refs: seq<string>, keyNames: seq<string>, m: Manifest)
    returns (r: Option<Archive>, sorted: seq<string>)
    requires m.entries == []
    ensures multiset(sorted) == multiset(keyNames)
    ensures r.Some? <==> Readable(c, src, refs, keyNames)
    ensures r.Some? ==> Readable(c, src, refs, sorted) && r.value == ArchiveOf(c, m, Items(c, src, refs, sorted))
  {
    sorted := Names.Sort(keyNames);
    ReadableInAnyOrder(c, src, refs, sorted, keyNames);
    if src.db == None {
      return None, sorted;
    }
    var w := new Writer(c);
    w.Add(DB, src.db.value);
    if src.config.Some? {
      w.Add(CONFIG, src.config.value);
    }
    assert w.items == CoreItems(src);
    var ok := w.AddBlobs(src, refs);
    if !ok {
      return None, sorted;
    }
    ok := w.AddKeys(src, sorted);
    if !ok {
      return None, sorted;
    }
    var manifest := m.(entries := m.entries + w.listed);
    assert manifest == Signed(c, m, w.items) && w.items == Items(c, src, refs, sorted);
    r := Some(Archive(w.tarred + [TarEntry(MANIFEST, Regular, c.encode(manifest))], true));
  }

  // ---------- what is written comes back ----------

  predicate NamesOk(c: Codec, items: seq<Item>)
  {
    && (forall i :: 0 <= i < |items| ==> c.place(items[i].name).Some? && c.place(items[i].name) != Some(MANIFEST))
    && forall i, j :: 0 <= i < j < |items| ==> c.place(items[i].name) != c.place(items[j].name)
  }

  lemma WrittenIsExtractableIff(c: Codec, m: Manifest, items: seq<Item>)
    requires c.RoundTrips()
    ensures Extractable(c, ArchiveOf(c, m, items).entries) <==> NamesOk(c, items)
  {
    var entries, n := ArchiveOf(c, m, items).entries, |items|;
    assert entries[n].name == MANIFEST;
    assert forall i :: 0 <= i < n ==> entries[i].name == items[i].name && entries[i].kind == Regular;
    if NamesOk(c, items) {
      assert forall i :: 0 <= i < n ==> c.place(entries[i].name) != c.place(entries[n].name);
    }
    if Extractable(c, entries) {
      forall i | 0 <= i < n ensures c.place(items[i].name).Some? && c.place(items[i].name) != Some(MANIFEST) {
        assert c.place(entries[i].name) != c.place(entries[n].name);
      }
      forall i, j | 0 <= i < j < n ensures c.place(items[i].name) != c.place(items[j].name) {
        assert c.place(entries[i].name) != c.place(entries[j].name);
      }
    }
  }

  // The stage of a written archive verifies exactly when its list has the required files.
  lemma WrittenIsVerifiedIff(c: Codec, m: Manifest, items: seq<Item>, stage: Stage)
    requires c.RoundTrips() && NamesOk(c, items) && m.format == FORMAT && m.version == VERSION
    requires Extractable(c, ArchiveOf(c, m, items).entries) && Holds(c, stage, ArchiveOf(c, m, items).entries)
    ensures MANIFEST in stage && c.parse(stage[MANIFEST]) == Some(Signed(c, m, items))
    ensures Verified(c, stage, Signed(c, m, items)) <==>
            forall i :: 0 <= i < |m.required| ==> ListedIn(c, Listing(c, items), m.required[i])
    ensures forall i :: 0 <= i < |items| ==>
              c.place(items[i].name).value in stage && stage[c.place(items[i].name).value] == items[i].content
    ensures forall f :: f in stage ==> f == MANIFEST || ListedIn(c, Listing(c, items), f)
  {
    var entries, n := ArchiveOf(c, m, items).entries, |items|;
    var signed := Signed(c, m, items);
    assert entries[n] == TarEntry(MANIFEST, Regular, c.encode(signed));
    assert forall i :: 0 <= i < n ==> entries[i] == TarEntry(items[i].name, Regular, items[i].content);
    forall f | f in stage ensures f == MANIFEST || ListedIn(c, Listing(c, items), f) {
      var i :| 0 <= i < |entries| && c.place(entries[i].name) == Some(f);
      if i < n { assert c.place(Listing(c, items)[i].name) == Some(f); }
    }
    forall i | 0 <= i < n ensures EntryVerified(c, stage, signed.entries[i]) {
      assert c.place(entries[i].name).value in stage;
    }
  }

  // Written, extracted and verified: for an archive that could be written this succeeds
  // exactly when its names are acceptable and distinct and the required files are listed.
  lemma WrittenRestoresIff(c: Codec, m: Manifest, items: seq<Item>, stage: Stage)
    requires c.RoundTrips() && m.format == FORMAT && m.version == VERSION
    requires Extractable(c, ArchiveOf(c, m, items).entries) ==> Holds(c, stage, ArchiveOf(c, m, items).entries)
    ensures (&& Extractable(c, ArchiveOf(c, m, items).entries)
             && MANIFEST in stage && c.parse(stage[MANIFEST]).Some?
             && Verified(c, stage, c.parse(stage[MANIFEST]).value))
            <==>
            NamesOk(c, items) && forall i :: 0 <= i < |m.required| ==> ListedIn(c, Listing(c, items), m.required[i])
  {
    WrittenIsExtractableIff(c, m, items);
    if NamesOk(c, items) {
      WrittenIsVerifiedIff(c, m, items, stage);
    }
  }

  // ---------- choosing what to archive ----------

  datatype Found = Present | Absent | Unreadable

  // One pass: the frozen snapshot, the references it holds, and what is on disk then.
  datatype Attempt = Attempt(snapshots: bool, refs: Option<seq<string>>, disk: string -> Found)

  datatype Enumerated = Taken(attempt: nat, refs: seq<string>) | Missing(refs: seq<string>) | Fatal

  const SNAPSHOT_ATTEMPTS := 3

  predicate IsMissing(disk: string -> Found, r: string)
  {
    EnvBlobHash(r) == None || disk(EnvBlobHash(r).value + ".age") == Absent
  }

  predicate IsUnreadable(disk: string -> Found, r: string)
  {
    EnvBlobHash(r).Some? && disk(EnvBlobHash(r).value + ".age") == Unreadable
  }

  predicate OnDisk(disk: string -> Found, r: string)
  {
    EnvBlobHash(r).Some? && disk(EnvBlobHash(r).value + ".age") == Present
  }

  // Absences are collected; any other failure is reported as what it is.
  method MissingBlobRefs(disk: string -> Found, refs: seq<string>) returns (missing: Option<seq<string>>)
    ensures missing == None <==> exists i :: 0 <= i < |refs| && IsUnreadable(disk, refs[i])
    ensures missing.Some? ==> forall r :: r in missing.value <==> r in refs && IsMissing(disk, r)
  {
    var found: seq<string> := [];
    for i := 0 to |refs|
      invariant forall j :: 0 <= j < i ==> !IsUnreadable(disk, refs[j])
      invariant forall r :: r in found <==> r in refs[..i] && IsMissing(disk, r)
    {
      assert refs[..i + 1] == refs[..i] + [refs[i]];
      var hash := EnvBlobHash(refs[i]);
      if hash == None {
        found := found + [refs[i]];
        continue;
      }
      match disk(hash.value + ".age") {
        case Present =>
        case Absent => found := found + [refs[i]];
        case Unreadable =>
          assert IsUnreadable(disk, refs[i]);
          return None;
      }
    }
    assert refs[..|refs|] == refs;
    missing := Some(found);
  }

  predicate Drifted(a: Attempt)
  {
    a.snapshots && a.refs.Some? && exists i :: 0 <= i < |a.refs.value| && IsMissing(a.disk, a.refs.value[i])
  }

  predicate Fails(a: Attempt)
  {
    !a.snapshots || a.refs == None || exists i :: 0 <= i < |a.refs.value| && IsUnreadable(a.disk, a.refs.value[i])
  }

  // The archived references are those of one snapshot whose every blob was there; a reference
  // is given up as missing only after every attempt, and nothing but absence is retried.
  method SnapshotAndEnumerate(attempts: nat -> Attempt) returns (r: Enumerated)
    ensures r.Taken? ==>
              && r.attempt < SNAPSHOT_ATTEMPTS && attempts(r.attempt).snapshots
              && attempts(r.attempt).refs == Some(r.refs)
              && (forall x :: x in r.refs ==> OnDisk(attempts(r.attempt).disk, x))
              && forall k :: 0 <= k < r.attempt ==> Drifted(attempts(k))
    ensures r.Missing? ==>
              && (forall k :: 0 <= k < SNAPSHOT_ATTEMPTS ==> Drifted(attempts(k)))
              && forall x :: x in r.refs <==>
                   x in attempts(SNAPSHOT_ATTEMPTS - 1).refs.value && IsMissing(attempts(SNAPSHOT_ATTEMPTS - 1).disk, x)
    ensures r.Fatal? ==> exists k :: 0 <= k < SNAPSHOT_ATTEMPTS && Fails(attempts(k))
  {
    var last: seq<string> := [];
    for k := 0 to SNAPSHOT_ATTEMPTS
      invariant forall n :: 0 <= n < k ==> Drifted(attempts(n))
      invariant k > 0 ==> forall x ::
                  x in last <==> x in attempts(k - 1).refs.value && IsMissing(attempts(k - 1).disk, x)
    {
      var a := attempts(k);
      if !a.snapshots || a.refs == None {
        assert Fails(attempts(k));
        return Fatal;
      }
      var missing := MissingBlobRefs(a.disk, a.refs.value);
      if missing == None {
        assert Fails(attempts(k));
        return Fatal;
      }
      if missing.value == [] {
        forall x | x in a.refs.value ensures OnDisk(a.disk, x) {
          var i :| 0 <= i < |a.refs.value| && a.refs.value[i] == x;
          assert !IsUnreadable(a.disk, a.refs.value[i]) && x !in missing.value;
        }
        return Taken(k, a.refs.value);
      }
      assert missing.value[0] in missing.value;
      last := missing.value;
    }
    var sorted := Names.Sort(last);
    Names.PermutationIsDistinct(sorted, last);
    r := Missing(sorted);
  }

  // ---------- the writer's own names are acceptable ----------

  lemma AgeFileIsLeaf(hash: string)
    requires '/' !in hash && '\\' !in hash
    ensures Leaf(hash + ".age")
  {
    assert |hash + ".age"| > 2 && '/' !in ".age" && '\\' !in ".age";
  }

  lemma BlobName(c: Codec, src: Sources, r: string)
    requires BlobReadable(c, src, r)
    ensures var file := EnvBlobHash(r).value + ".age";
            Leaf(file) && BlobItem(c, src, r).name == "blobs/" + file && "age_blob:" + EnvBlobHash(r).value == r
  {
    var file := EnvBlobHash(r).value + ".age";
    AgeFileIsLeaf(EnvBlobHash(r).value);
    TwoLevelIsClean("blobs", file);
    assert "blobs" + "/" + file == "blobs/" + file;
  }

  lemma KeyName(name: string)
    requires Leaf(name)
    ensures Join("keys", name) == "keys/" + name
  {
    TwoLevelIsClean("keys", name);
    assert "keys" + "/" + name == "keys/" + name;
  }

  lemma DistinctBlobNames(c: Codec, src: Sources, r: string, s: string)
    requires BlobReadable(c, src, r) && BlobReadable(c, src, s) && r != s
    ensures BlobItem(c, src, r).name != BlobItem(c, src, s).name
  {
    BlobName(c, src, r);
    BlobName(c, src, s);
    var a, b := EnvBlobHash(r).value, EnvBlobHash(s).value;
    assert ("blobs/" + (a + ".age"))[6..] == a + ".age" && ("blobs/" + (b + ".age"))[6..] == b + ".age";
    assert (a + ".age")[..|a + ".age"| - 4] == a && (b + ".age")[..|b + ".age"| - 4] == b;
  }

  predicate DistinctNames(items: seq<Item>)
  {
    forall i, j :: 0 <= i < j < |items| ==> items[i].name != items[j].name
  }

  // A name an archive may list.
  predicate Listable(name: string)
  {
    InLayout(name) && name != MANIFEST
  }

  lemma FirstLetters(name: string)
    ensures name == DB ==> name[0] == 's'
    ensures name == CONFIG ==> name[0] == 'c'
    ensures name == MANIFEST ==> name[0] == 'm'
    ensures "blobs/" <= name ==> name[0] == 'b'
    ensures "keys/" <= name ==> name[0] == 'k'
  {
  }

  // The names of one section start with one of these letters.
  predicate Starts(items: seq<Item>, letters: set<char>)
  {
    forall i :: 0 <= i < |items| ==> items[i].name != "" && items[i].name[0] in letters
  }

  lemma ConcatDistinct(a: seq<Item>, b: seq<Item>, la: set<char>, lb: set<char>)
    requires DistinctNames(a) && DistinctNames(b) && Starts(a, la) && Starts(b, lb) && la !! lb
    ensures DistinctNames(a + b) && Starts(a + b, la + lb)
  {
    forall i, j | 0 <= i < j < |a + b| ensures (a + b)[i].name != (a + b)[j].name {
      if i < |a| <= j {
        assert (a + b)[i].name[0] in la && b[j - |a|].name[0] in lb;
      }
    }
  }

  lemma CoreNames(src: Sources)
    requires src.db.Some?
    ensures DistinctNames(CoreItems(src)) && Starts(CoreItems(src), {'s', 'c'})
    ensures forall i :: 0 <= i < |CoreItems(src)| ==> Listable(CoreItems(src)[i].name)
  {
    FirstLetters(DB);
    FirstLetters(CONFIG);
    FirstLetters(MANIFEST);
  }

  lemma BlobNames(c: Codec, src: Sources, refs: seq<string>)
    requires Names.Distinct(refs) && forall i :: 0 <= i < |refs| ==> BlobReadable(c, src, refs[i])
    ensures DistinctNames(BlobItems(c, src, refs)) && Starts(BlobItems(c, src, refs), {'b'})
    ensures forall i :: 0 <= i < |refs| ==> Listable(BlobItems(c, src, refs)[i].name)
  {
    var items := BlobItems(c, src, refs);
    forall i, j | 0 <= i < j < |refs| ensures items[i].name != items[j].name {
      DistinctBlobNames(c, src, refs[i], refs[j]);
    }
    forall i | 0 <= i < |refs| ensures items[i].name != "" && items[i].name[0] == 'b' && Listable(items[i].name) {
      BlobName(c, src, refs[i]);
      FirstLetters(items[i].name);
    }
  }

  lemma KeyNames(src: Sources, keys: seq<string>)
    requires Names.Distinct(keys) && forall i :: 0 <= i < |keys| ==> keys[i] in src.keys && Leaf(keys[i])
    ensures DistinctNames(KeyItems(src, keys)) && Starts(KeyItems(src, keys), {'k'})
    ensures forall i :: 0 <= i < |keys| ==> Listable(KeyItems(src, keys)[i].name)
  {
    var items := KeyItems(src, keys);
    forall i | 0 <= i < |keys|
      ensures items[i].name == "keys/" + keys[i] && items[i].name[5..] == keys[i]
      ensures items[i].name[0] == 'k' && Listable(items[i].name)
    {
      KeyName(keys[i]);
      FirstLetters(items[i].name);
    }
  }

  // Everything the writer lists may be listed, under distinct names.
  lemma ItemNames(c: Codec, src: Sources, refs: seq<string>, keys: seq<string>)
    requires Readable(c, src, refs, keys) && Names.Distinct(refs) && Names.Distinct(keys)
    requires forall k :: 0 <= k < |keys| ==> Leaf(keys[k])
    ensures DistinctNames(Items(c, src, refs, keys))
    ensures forall i :: 0 <= i < |Items(c, src, refs, keys)| ==> Listable(Items(c, src, refs, keys)[i].name)
  {
    CoreNames(src);
    BlobNames(c, src, refs);
    KeyNames(src, keys);
    ConcatDistinct(CoreItems(src), BlobItems(c, src, refs), {'s', 'c'}, {'b'});
    ConcatDistinct(CoreItems(src) + BlobItems(c, src, refs), KeyItems(src, keys), {'s', 'c'} + {'b'}, {'k'});
  }

  // What a full backup requires of itself.
  function RequiredFiles(device: string): seq<string>
  {
    [DB, "keys/" + (device + ".agekey"), "keys/" + (device + ".signing.key")]
  }

  // Every item stays under its own name.
  predicate InPlace(c: Codec, items: seq<Item>)
  {
    forall i :: 0 <= i < |items| ==> c.place(items[i].name) == Some(items[i].name) && items[i].name != MANIFEST
  }

  lemma KeyIsListed(c: Codec, src: Sources, refs: seq<string>, keys: seq<string>, name: string)
    requires Readable(c, src, refs, keys) && InPlace(c, Items(c, src, refs, keys)) && name in keys && Leaf(name)
    ensures ListedIn(c, Listing(c, Items(c, src, refs, keys)), "keys/" + name)
  {
    var k :| 0 <= k < |keys| && keys[k] == name;
    KeyName(name);
    var items, n := Items(c, src, refs, keys), |CoreItems(src)| + |refs| + k;
    assert items[n] == KeyItems(src, keys)[k];
    ItemIsListed(c, items, n);
  }

  lemma RequiredAreListed(c: Codec, src: Sources, refs: seq<string>, keys: seq<string>, device: string)
    requires Readable(c, src, refs, keys) && InPlace(c, Items(c, src, refs, keys))
    requires device + ".agekey" in keys && device + ".signing.key" in keys
    requires Leaf(device + ".agekey") && Leaf(device + ".signing.key")
    ensures forall i :: 0 <= i < 3 ==> ListedIn(c, Listing(c, Items(c, src, refs, keys)), RequiredFiles(device)[i])
  {
    KeyIsListed(c, src, refs, keys, device + ".agekey");
    KeyIsListed(c, src, refs, keys, device + ".signing.key");
    ItemIsListed(c, Items(c, src, refs, keys), 0);
  }

  lemma ItemIsListed(c: Codec, items: seq<Item>, i: nat)
    requires i < |items| && c.place(items[i].name) == Some(items[i].name)
    ensures ListedIn(c, Listing(c, items), items[i].name)
  {
    assert Listing(c, items)[i].name == items[i].name;
  }

  // The round trip: with distinct references, distinct single-component key names and the
  // device's two key files, whatever is written extracts and verifies, and every file comes
  // back with its content.
  lemma RoundTrip(c: Codec, src: Sources, refs: seq<string>, keys: seq<string>, m: Manifest, device: string,
                  stage: Stage)
    requires c.Lawful() && Readable(c, src, refs, keys)
    requires Names.Distinct(refs) && Names.Distinct(keys) && forall k :: 0 <= k < |keys| ==> Leaf(keys[k])
    requires device + ".agekey" in keys && device + ".signing.key" in keys
    requires m.format == FORMAT && m.version == VERSION && m.required == RequiredFiles(device)
    requires var entries := ArchiveOf(c, m, Items(c, src, refs, keys)).entries;
             Extractable(c, entries) ==> Holds(c, stage, entries)
    ensures Extractable(c, ArchiveOf(c, m, Items(c, src, refs, keys)).entries)
    ensures MANIFEST in stage && c.parse(stage[MANIFEST]).Some? && Verified(c, stage, c.parse(stage[MANIFEST]).value)
    ensures forall i :: 0 <= i < |Items(c, src, refs, keys)| ==>
              var item := Items(c, src, refs, keys)[i]; item.name in stage && stage[item.name] == item.content
  {
    var items := Items(c, src, refs, keys);
    ItemNames(c, src, refs, keys);
    AllInPlace(c, items);
    RequiredAreListed(c, src, refs, keys, device);
    Restores(c, m, items, stage);
  }

  lemma AllInPlace(c: Codec, items: seq<Item>)
    requires c.Lawful() && forall i :: 0 <= i < |items| ==> Listable(items[i].name)
    ensures InPlace(c, items)
  {
    forall i | 0 <= i < |items| ensures c.place(items[i].name) == Some(items[i].name) && items[i].name != MANIFEST {
      LayoutIsSanitized(items[i].name);
    }
  }

  lemma Restores(c: Codec, m: Manifest, items: seq<Item>, stage: Stage)
    requires c.RoundTrips() && m.format == FORMAT && m.version == VERSION
    requires InPlace(c, items)
    requires DistinctNames(items)
    requires forall i :: 0 <= i < |m.required| ==> ListedIn(c, Listing(c, items), m.required[i])
    requires Extractable(c, ArchiveOf(c, m, items).entries) ==> Holds(c, stage, ArchiveOf(c, m, items).entries)
    ensures Extractable(c, ArchiveOf(c, m, items).entries)
    ensures MANIFEST in stage && c.parse(stage[MANIFEST]).Some? && Verified(c, stage, c.parse(stage[MANIFEST]).value)
    ensures forall i :: 0 <= i < |items| ==> items[i].name in stage && stage[items[i].name] == items[i].content
  {
    WrittenIsExtractableIff(c, m, items);
    WrittenIsVerifiedIff(c, m, items, stage);
  }
}
