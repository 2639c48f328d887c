// tarfs.c and vfs.c: a tar archive in memory as the root directory, path lookup in it, and reading.

module TarFiles {
  import opened Sequences

  type Byte = b: nat | b < 256

  // The characters the code looks at: '.' is 46, '/' is 47, '0' is 48.

  // A file, and the digits its header gives for the size.
  datatype File = File(name: seq<Byte>, data: seq<Byte>, octal: seq<Byte>)

  predicate CString(s: seq<Byte>) { forall i :: 0 <= i < |s| ==> s[i] != 0 }

  // The C string at a position of the archive.
  ghost predicate StrAt(a: seq<Byte>, pos: nat, s: seq<Byte>) {
    pos + |s| < |a| && CString(s) && a[pos..pos + |s|] == s && a[pos + |s|] == 0
  }

  // ---- Octal numbers ----

  // *str - '0', with plain char signed.
  function Digit(b: Byte): int { (if b < 128 then b else b - 256) - 48 }

  // The byte as a signed number, less '0'.
  lemma DigitSigned(b: Byte)
    ensures -128 <= Digit(b) + 48 < 128 && (Digit(b) + 48 == b || Digit(b) + 48 == b - 256)
  {
  }

  function OctValue(s: seq<Byte>): int {
    if s == [] then 0 else OctValue(s[..|s| - 1]) * 8 + Digit(s[|s| - 1])
  }

  predicate Octal(s: seq<Byte>) { forall i :: 0 <= i < |s| ==> 48 <= s[i] < 56 }

  // The digits of n, padded with zeros on the left.
  function OctDigits(n: nat, width: nat): seq<Byte> {
    if width == 0 then [] else OctDigits(n / 8, width - 1) + [48 + n % 8]
  }

  function Pow8(n: nat): nat { if n == 0 then 1 else 8 * Pow8(n - 1) }

  lemma {:induction false} OctalRoundTrip(n: nat, width: nat)
    requires n < Pow8(width)
    ensures |OctDigits(n, width)| == width && Octal(OctDigits(n, width)) && OctValue(OctDigits(n, width)) == n
  {
    if width > 0 {
      OctalRoundTrip(n / 8, width - 1);
      var s := OctDigits(n, width);
      assert s[..|s| - 1] == OctDigits(n / 8, width - 1);
    }
  }

  lemma {:induction false} OctalBound(s: seq<Byte>)
    requires Octal(s)
    ensures 0 <= OctValue(s) < Pow8(|s|)
    decreases |s|
  {
    if s != [] { OctalBound(s[..|s| - 1]); }
  }

  lemma {:induction false} Pow8Grows(n: nat, k: nat)
    requires n <= k
    ensures Pow8(n) <= Pow8(k)
    decreases k
  {
    if n < k { Pow8Grows(n, k - 1); }
  }

  // Eleven digits are far from wrapping around.
  lemma SizeFits(s: seq<Byte>)
    requires Octal(s) && |s| <= 11
    ensures 0 <= OctValue(s) < 0x1_0000_0000_0000_0000
  {
    OctalBound(s);
    Pow8Grows(|s|, 11);
    assert Pow8(11) == 0x2_0000_0000;
  }

  lemma WrapStep(v: int, d: int)
    ensures (v % 0x1_0000_0000_0000_0000 * 8 + d) % 0x1_0000_0000_0000_0000 == (v * 8 + d) % 0x1_0000_0000_0000_0000
  {
  }

  // oct2bin
  method OctToBin(a: seq<Byte>, pos: nat, ghost s: seq<Byte>) returns (value: nat)
    requires StrAt(a, pos, s)
    ensures value == OctValue(s) % 0x1_0000_0000_0000_0000
  {
    value := 0;
    var i := pos;
    while a[i] != 0
      invariant pos <= i <= pos + |s| && value == OctValue(s[..i - pos]) % 0x1_0000_0000_0000_0000
      decreases |a| - i
    {
      ghost var k := i - pos;
      assert a[pos..pos + |s|][k] == a[i];
      assert s[..k + 1][..k] == s[..k];
      WrapStep(OctValue(s[..k]), Digit(a[i]));
      value := (value * 8 + Digit(a[i])) % 0x1_0000_0000_0000_0000;
      i := i + 1;
    }
    StringEnds(a, pos, s, i - pos);
    assert s[..|s|] == s;
  }

  lemma StringEnds(a: seq<Byte>, pos: nat, s: seq<Byte>, k: nat)
    requires StrAt(a, pos, s) && k <= |s| && a[pos + k] == 0
    ensures k == |s|
  {
    forall j | 0 <= j < |s| ensures a[pos + j] == s[j] {
      assert a[pos..pos + |s|][j] == a[pos + j];
    }
  }

  // strcpy
  method CopyString(a: seq<Byte>, pos: nat, ghost s: seq<Byte>) returns (r: seq<Byte>)
    requires StrAt(a, pos, s)
    ensures r == s
  {
    r := [];
    var i := pos;
    while a[i] != 0
      invariant pos <= i <= pos + |s| && r == s[..i - pos]
      decreases |a| - i
    {
      assert a[pos..pos + |s|][i - pos] == a[i];
      r := r + [a[i]];
      i := i + 1;
    }
    StringEnds(a, pos, s, i - pos);
  }

  // ---- The archive ----

  function Round512(size: nat): nat { (size + 511) / 512 * 512 }

  predicate DotSlash(name: seq<Byte>) { |name| >= 2 && name[0] == 46 && name[1] == 47 }

  // The name without a leading "./".
  function Strip(name: seq<Byte>): seq<Byte> { if DotSlash(name) then name[2..] else name }

  // A header of the ustar format (POSIX.1-2017, pax, "ustar Interchange Format") and the data behind
  // it: the name at offset 0, the size in octal at offset 124.
  ghost predicate EntryAt(a: seq<Byte>, pos: nat, f: File) {
    pos + 512 + Round512(|f.data|) <= |a| &&
    f.name != [] && |f.name| < 100 && |Strip(f.name)| < 64 && StrAt(a, pos, f.name) &&
    |f.octal| <= 11 && Octal(f.octal) && OctValue(f.octal) == |f.data| && StrAt(a, pos + 124, f.octal) &&
    a[pos + 512..pos + 512 + |f.data|] == f.data
  }

  // One entry after the other, up to a header without a name.
  ghost predicate Archive(a: seq<Byte>, pos: nat, files: seq<File>)
    decreases |files|
  {
    if files == [] then pos < |a| && a[pos] == 0
    else EntryAt(a, pos, files[0]) && Archive(a, pos + 512 + Round512(|files[0].data|), files[1..])
  }

  datatype Vnode = Vnode(name: seq<Byte>, size: nat, start: nat)

  // The file name "./" + n is shown as n, any other as it is.
  predicate ShownAs(name: seq<Byte>, n: seq<Byte>) { name == [46, 47] + n || (name == n && !([46, 47] <= n)) }

  // A node stands for a file: its name, its size and its bytes.
  ghost predicate Stands(a: seq<Byte>, v: Vnode, f: File) {
    ShownAs(f.name, v.name) && v.size == |f.data| && v.start + v.size <= |a| && a[v.start..v.start + v.size] == f.data
  }

  ghost predicate Mounted(a: seq<Byte>, nodes: seq<Vnode>, files: seq<File>) {
    |nodes| == |files| && forall i :: 0 <= i < |files| ==> Stands(a, nodes[i], files[i])
  }

  // tarfs_init. The static arrays hold 64 pointers, the last of them null.
  method Init(a: seq<Byte>, ghost files: seq<File>) returns (children: seq<Vnode>)
    requires Archive(a, 0, files) && |files| <= 63
    ensures Mounted(a, children, files)
  {
    hide Archive, EntryAt, Mounted, Stands, Round512;
    children := [];
    var ptr: nat := 0;
    ArchiveWithin(a, 0, files);
    MountedStart(a, files);
    assert files[0..] == files;
    while a[ptr] != 0
      invariant |children| <= |files| && ptr < |a| && Archive(a, ptr, files[|children|..])
      invariant Mounted(a, children, files[..|children|])
      decreases |files| - |children|
    {
      ghost var k := |children|;
      NotLast(a, ptr, files, k);
      var node, full := ReadEntry(a, ptr, files[k]);
      MountedNext(a, children, files, k, node);
      children := children + [node];
      ptr := ptr + 512 + full;
    }
    Ends(a, ptr, files[|children|..]);
    assert files[..|children|] == files;
  }

  lemma MountedStart(a: seq<Byte>, files: seq<File>)
    ensures Mounted(a, [], files[..0])
  {
  }

  lemma MountedNext(a: seq<Byte>, nodes: seq<Vnode>, files: seq<File>, k: nat, node: Vnode)
    requires k < |files| && Mounted(a, nodes, files[..k]) && Stands(a, node, files[k])
    ensures Mounted(a, nodes + [node], files[..k + 1])
  {
    hide Stands;
    forall i | 0 <= i < k + 1 ensures Stands(a, (nodes + [node])[i], files[..k + 1][i]) {
      if i < k { assert files[..k][i] == files[..k + 1][i]; }
    }
  }

  // One round of tarfs_init's loop.
  method ReadEntry(a: seq<Byte>, ptr: nat, ghost f: File) returns (node: Vnode, full: nat)
    requires EntryAt(a, ptr, f)
    ensures Stands(a, node, f) && full == Round512(|f.data|)
  {
    SizeFits(f.octal);
    var size := OctToBin(a, ptr + 124, f.octal);
    var at := ptr;
    NameBytes(a, ptr, f.name);
    if a[ptr] == 46 && a[ptr + 1] == 47 {
      at := at + 2;
    }
    Stripped(a, ptr, f.name);
    var name := CopyString(a, at, Strip(f.name));
    StripShows(f.name);
    node := Vnode(name, size, ptr + 512);
    full := (size + 511) / 512 * 512;
  }

  lemma StripShows(name: seq<Byte>)
    ensures ShownAs(name, Strip(name))
  {
    if DotSlash(name) { assert name == name[..2] + name[2..] && name[..2] == [46, 47]; }
  }

  // No name is shown in two ways.
  lemma ShownOnce(name: seq<Byte>, m: seq<Byte>, n: seq<Byte>)
    requires ShownAs(name, m) && ShownAs(name, n)
    ensures m == n
  {
    if name == [46, 47] + m && name == [46, 47] + n { assert m == name[2..] == n; }
  }

  lemma NameBytes(a: seq<Byte>, pos: nat, s: seq<Byte>)
    requires StrAt(a, pos, s) && s != []
    ensures a[pos] == s[0] && (if |s| >= 2 then a[pos + 1] == s[1] else a[pos + 1] == 0)
  {
    assert a[pos..pos + |s|][0] == a[pos];
    if |s| >= 2 { assert a[pos..pos + |s|][1] == a[pos + 1]; }
  }

  lemma Stripped(a: seq<Byte>, pos: nat, s: seq<Byte>)
    requires StrAt(a, pos, s)
    ensures StrAt(a, if DotSlash(s) then pos + 2 else pos, Strip(s))
  {
    if DotSlash(s) { assert a[pos + 2..pos + |s|] == a[pos..pos + |s|][2..]; }
  }

  lemma NotLast(a: seq<Byte>, pos: nat, files: seq<File>, k: nat)
    requires k <= |files| && Archive(a, pos, files[k..]) && pos < |a| && a[pos] != 0
    ensures k < |files| && EntryAt(a, pos, files[k])
    ensures var next := pos + 512 + Round512(|files[k].data|); next < |a| && Archive(a, next, files[k + 1..])
  {
    hide Round512, EntryAt;
    assert files[k..] != [];
    assert files[k..][0] == files[k] && files[k..][1..] == files[k + 1..];
    ArchiveWithin(a, pos + 512 + Round512(|files[k].data|), files[k + 1..]);
  }

  lemma ArchiveWithin(a: seq<Byte>, pos: nat, files: seq<File>)
    requires Archive(a, pos, files)
    ensures pos < |a|
  {
  }

  lemma Ends(a: seq<Byte>, pos: nat, files: seq<File>)
    requires Archive(a, pos, files) && pos < |a| && a[pos] == 0
    ensures files == []
  {
    if files != [] { NameBytes(a, pos, files[0].name); }
  }

  // ---- The encoder the parser undoes ----

  function Zeros(n: nat): seq<Byte> { seq(n, _ => 0) }

  function Encode(files: seq<File>): seq<Byte>
    requires forall f :: f in files ==> Fits(f)
  {
    if files == [] then Zeros(1024) else EncodeEntry(files[0]) + Encode(files[1..])
  }

  // The fields tarfs reads, all others zero.
  function EncodeEntry(f: File): (r: seq<Byte>)
    requires Fits(f)
    ensures |r| == 512 + Round512(|f.data|)
  {
    f.name + Zeros(124 - |f.name|) + f.octal + Zeros(388 - |f.octal|) + f.data + Zeros(Round512(|f.data|) - |f.data|)
  }

  predicate Fits(f: File) {
    f.name != [] && CString(f.name) && |f.name| < 100 && |Strip(f.name)| < 64 &&
    |f.octal| <= 11 && Octal(f.octal) && OctValue(f.octal) == |f.data|
  }

  lemma EntryEncoded(pre: seq<Byte>, f: File, post: seq<Byte>)
    requires Fits(f)
    ensures EntryAt(pre + EncodeEntry(f) + post, |pre|, f)
  {
    EntryParts(pre, f, post);
    hide Octal, OctValue, Strip, CString, EncodeEntry, Round512;
    assert EntryAt(pre + EncodeEntry(f) + post, |pre|, f);
  }

  lemma EntryParts(pre: seq<Byte>, f: File, post: seq<Byte>)
    requires Fits(f)
    ensures var a := pre + EncodeEntry(f) + post;
      |pre| + 512 + Round512(|f.data|) <= |a| && a[|pre|..|pre| + |f.name|] == f.name && a[|pre| + |f.name|] == 0 &&
      a[|pre| + 124..|pre| + 124 + |f.octal|] == f.octal && a[|pre| + 124 + |f.octal|] == 0 &&
      a[|pre| + 512..|pre| + 512 + |f.data|] == f.data && CString(f.octal)
  {
    RoundUp(|f.data|);
    FieldAt(pre, f.name, 124, f.octal, 512, f.data, Round512(|f.data|), post);
    hide Round512, OctValue, Strip, CString, Zeros, EncodeEntry;
    assert CString(f.octal) by { DigitsNotNul(f.octal); }
    assert EncodeEntry(f) == Fields(f.name, 124, f.octal, 512, f.data, Round512(|f.data|)) by { FieldsOf(f); }
  }

  lemma DigitsNotNul(s: seq<Byte>)
    requires Octal(s)
    ensures CString(s)
  {
  }

  lemma FieldsOf(f: File)
    requires Fits(f) && Round512(|f.data|) >= |f.data|
    ensures EncodeEntry(f) == Fields(f.name, 124, f.octal, 512, f.data, Round512(|f.data|))
  {
  }

  // Three fields at their offsets, padded with zeros.
  function Fields(n: seq<Byte>, i: nat, o: seq<Byte>, j: nat, d: seq<Byte>, full: nat): seq<Byte>
    requires |n| <= i && i + |o| <= j && |d| <= full
  {
    n + Zeros(i - |n|) + o + Zeros(j - i - |o|) + d + Zeros(full - |d|)
  }

  lemma FieldAt(pre: seq<Byte>, n: seq<Byte>, i: nat, o: seq<Byte>, j: nat, d: seq<Byte>, full: nat, post: seq<Byte>)
    requires |n| < i && i + |o| < j && |d| <= full
    ensures var a := pre + Fields(n, i, o, j, d, full) + post;
      |a| >= |pre| + j + full && a[|pre|..|pre| + |n|] == n && a[|pre| + |n|] == 0 &&
      a[|pre| + i..|pre| + i + |o|] == o && a[|pre| + i + |o|] == 0 && a[|pre| + j..|pre| + j + |d|] == d
  {
    var z1, z2, z3 := Zeros(i - |n|), Zeros(j - i - |o|), Zeros(full - |d|);
    assert z1[0] == 0 && z2[0] == 0;
    hide Zeros;
    Splits(n, z1, o, z2, d, z3);
    PartAt(pre, [], n, z1 + (o + (z2 + (d + z3))), post);
    PartAt(pre, n + z1, o, z2 + (d + z3), post);
    PartAt(pre, n + z1 + o + z2, d, z3, post);
  }

  lemma RoundUp(size: nat)
    ensures Round512(size) >= size
  {
  }

  lemma Splits(n: seq<Byte>, z1: seq<Byte>, o: seq<Byte>, z2: seq<Byte>, d: seq<Byte>, z3: seq<Byte>)
    ensures n + z1 + o + z2 + d + z3 == [] + n + (z1 + (o + (z2 + (d + z3))))
    ensures n + z1 + o + z2 + d + z3 == (n + z1) + o + (z2 + (d + z3))
  {
  }

  lemma PartAt(pre: seq<Byte>, x: seq<Byte>, part: seq<Byte>, y: seq<Byte>, post: seq<Byte>)
    ensures var a := pre + (x + part + y) + post;
      a[|pre| + |x|..|pre| + |x| + |part|] == part && (y != [] ==> a[|pre| + |x| + |part|] == y[0])
  {
    var a := pre + (x + part + y) + post;
    forall i | 0 <= i < |part| ensures a[|pre| + |x| + i] == part[i] {
      assert (x + part + y)[|x| + i] == part[i];
    }
  }

  // Whatever files are encoded, tarfs_init finds them again.
  lemma {:induction false} EncodeIsArchive(pre: seq<Byte>, files: seq<File>)
    requires forall f :: f in files ==> Fits(f)
    ensures Archive(pre + Encode(files), |pre|, files)
    decreases |files|
  {
    hide Archive, EncodeEntry, EntryAt, Round512, Fits;
    if files == [] {
      assert (pre + Encode(files))[|pre|] == 0;
      ArchiveEnd(pre + Encode(files), |pre|);
    } else {
      var e, rest := EncodeEntry(files[0]), Encode(files[1..]);
      EntryEncoded(pre, files[0], rest);
      EncodeIsArchive(pre + e, files[1..]);
      assert pre + (e + rest) == pre + e + rest;
      ArchiveMore(pre + e + rest, |pre|, |pre + e|, files);
    }
  }

  // Whole blocks of 512 bytes, the last two of them zero.
  lemma {:induction false} EncodedBlocks(files: seq<File>)
    requires forall f :: f in files ==> Fits(f)
    ensures var r := Encode(files); |r| >= 1024 && |r| % 512 == 0 && r[|r| - 1024..] == Zeros(1024)
    decreases |files|
  {
    hide EncodeEntry, Fits;
    var r := Encode(files);
    if files == [] {
      assert r[0..] == r;
    } else {
      var rest := Encode(files[1..]);
      EncodedBlocks(files[1..]);
      WholeBlocks(|files[0].data|);
      assert r[|r| - 1024..] == rest[|rest| - 1024..];
    }
  }

  lemma WholeBlocks(size: nat)
    ensures Round512(size) % 512 == 0 && (512 + Round512(size)) % 512 == 0
  {
  }

  // Whatever can stand in an archive can be encoded.
  lemma EntryFits(a: seq<Byte>, pos: nat, f: File)
    requires EntryAt(a, pos, f)
    ensures Fits(f)
  {
  }

  lemma ArchiveEnd(a: seq<Byte>, pos: nat)
    requires pos < |a| && a[pos] == 0
    ensures Archive(a, pos, [])
  {
  }

  lemma ArchiveMore(a: seq<Byte>, pos: nat, next: nat, files: seq<File>)
    requires files != [] && EntryAt(a, pos, files[0]) && next == pos + 512 + Round512(|files[0].data|)
    requires Archive(a, next, files[1..])
    ensures Archive(a, pos, files)
  {
  }

  // ---- Lookup ----

  // What vfs_find_vnode finds. Beyond is the walk through a file's bytes taken for a directory.
  datatype Found = Root | Child(index: nat) | Missing | Beyond

  predicate NoSlash(s: seq<Byte>) { 47 !in s }

  // strcmp against the children of the root, in order.
  method SearchChildren(children: seq<Vnode>, name: seq<Byte>) returns (i: nat)
    ensures i <= |children| && (i < |children| ==> children[i].name == name)
    ensures forall j :: 0 <= j < i ==> children[j].name != name
  {
    i := 0;
    while i < |children| && children[i].name != name
      invariant i <= |children| && forall j :: 0 <= j < i ==> children[j].name != name
    {
      i := i + 1;
    }
  }

  // strchr(path, '/')
  method FindSlash(path: seq<Byte>) returns (i: nat)
    ensures i <= |path| && NoSlash(path[..i]) && (i < |path| ==> path[i] == 47)
  {
    i := 0;
    while i < |path| && path[i] != 47
      invariant i <= |path| && NoSlash(path[..i])
    {
      i := i + 1;
    }
  }

  // vfs_find_vnode, with the archive's files as the children of the root.
  method FindVnode(children: seq<Vnode>, path: seq<Byte>) returns (r: Found)
    ensures r == Find(children, path)
  {
    var rest := if path != [] && path[0] == 47 then path[1..] else path;
    if rest == [] {
      return Root;
    }
    if |rest| >= 128 {
      return Missing;
    }
    var tmp := if rest[|rest| - 1] == 47 then rest[..|rest| - 1] else rest;
    var i := SearchChildren(children, tmp);
    FirstAt(children, tmp, i);
    if i < |children| {
      return Child(i);
    }
    r := Walk(children, tmp);
  }

  // The walk by components. Every child of the root is a file, so a second component already leads
  // into file data.
  method Walk(children: seq<Vnode>, tmp: seq<Byte>) returns (r: Found)
    ensures r == WalkResult(children, tmp)
  {
    var path := tmp;
    r := Root;
    while path != []
      invariant if r == Root then path == tmp else path != [] ==> WalkResult(children, tmp) == Second(path)
      invariant path == [] && r != Root ==> r == WalkResult(children, tmp)
      decreases |path|
    {
      var slash := FindSlash(path);
      SlashAt(path, slash);
      if slash == 0 || slash >= 64 {
        return Missing;
      }
      if r != Root {
        return Beyond;
      }
      var i := SearchChildren(children, path[..slash]);
      FirstAt(children, path[..slash], i);
      if i == |children| {
        return Missing;
      }
      r := Child(i);
      if slash == |path| {
        break;
      }
      path := path[slash + 1..];
    }
  }

  // ---- Lookup, as a function ----

  function First(children: seq<Vnode>, name: seq<Byte>): nat {
    if children == [] || children[0].name == name then 0 else 1 + First(children[1..], name)
  }

  lemma {:induction false} FirstAt(children: seq<Vnode>, name: seq<Byte>, i: nat)
    requires i <= |children| && (i < |children| ==> children[i].name == name)
    requires forall j :: 0 <= j < i ==> children[j].name != name
    ensures First(children, name) == i
    decreases |children|
  {
    if i > 0 { FirstAt(children[1..], name, i - 1); }
  }

  function Slash(path: seq<Byte>): nat {
    if path == [] || path[0] == 47 then 0 else 1 + Slash(path[1..])
  }

  lemma {:induction false} SlashAt(path: seq<Byte>, i: nat)
    requires i <= |path| && NoSlash(path[..i]) && (i < |path| ==> path[i] == 47)
    ensures Slash(path) == i
    decreases |path|
  {
    if i > 0 {
      assert path[..i][0] == path[0];
      assert path[1..][..i - 1] == path[..i][1..];
      SlashAt(path[1..], i - 1);
    }
  }

  function Find(children: seq<Vnode>, path: seq<Byte>): Found {
    var rest := if path != [] && path[0] == 47 then path[1..] else path;
    if rest == [] then Root
    else if |rest| >= 128 then Missing
    else
      var tmp := if rest[|rest| - 1] == 47 then rest[..|rest| - 1] else rest;
      var i := First(children, tmp);
      if i < |children| then Child(i) else WalkResult(children, tmp)
  }

  function WalkResult(children: seq<Vnode>, tmp: seq<Byte>): Found {
    var slash := Slash(tmp);
    if tmp == [] then Root
    else if slash == 0 || slash >= 64 || slash > |tmp| || First(children, tmp[..slash]) == |children| then Missing
    else if slash + 1 < |tmp| then Second(tmp[slash + 1..])
    else Child(First(children, tmp[..slash]))
  }

  function Second(path: seq<Byte>): Found { if Slash(path) == 0 || Slash(path) >= 64 then Missing else Beyond }

  lemma {:induction false} FirstIs(children: seq<Vnode>, name: seq<Byte>)
    ensures First(children, name) <= |children|
    ensures First(children, name) < |children| ==> children[First(children, name)].name == name
    ensures forall j :: 0 <= j < First(children, name) && j < |children| ==> children[j].name != name
    decreases |children|
  {
    if children != [] && children[0].name != name { FirstIs(children[1..], name); }
  }

  // The first child with this name.
  ghost predicate FirstNamed(children: seq<Vnode>, i: nat, name: seq<Byte>) {
    i < |children| && children[i].name == name && forall j :: 0 <= j < i ==> children[j].name != name
  }

  lemma {:induction false} FirstNamedIs(children: seq<Vnode>, name: seq<Byte>, i: nat)
    ensures FirstNamed(children, i, name) <==> i < |children| && First(children, name) == i
    ensures First(children, name) == |children| <==> forall j :: 0 <= j < |children| ==> children[j].name != name
  {
    FirstIs(children, name);
    if FirstNamed(children, i, name) { FirstAt(children, name, i); }
  }

  // The path without one leading slash, and that without one trailing slash.
  function Rest(path: seq<Byte>): seq<Byte> { if path != [] && path[0] == 47 then path[1..] else path }

  function Key(path: seq<Byte>): seq<Byte> {
    var rest := Rest(path);
    if rest != [] && rest[|rest| - 1] == 47 then rest[..|rest| - 1] else rest
  }

  // A single component, as vfs_find_vnode copies it.
  predicate Component(c: seq<Byte>) { 0 < |c| < 64 && NoSlash(c) }

  // A path leads to a child exactly when it is its name, give or take a slash at either end, and no
  // earlier child has that name; or when no child does and the path is a component and two slashes.
  lemma FindIsChild(children: seq<Vnode>, path: seq<Byte>, i: nat)
    ensures Find(children, path) == Child(i) <==>
      0 < |Rest(path)| < 128 &&
      (FirstNamed(children, i, Key(path)) ||
       ((forall j :: 0 <= j < |children| ==> children[j].name != Key(path)) &&
        exists c :: Component(c) && Key(path) == c + [47] && FirstNamed(children, i, c)))
  {
    var key := Key(path);
    FirstNamedIs(children, key, i);
    FirstIs(children, key);
    if First(children, key) == |children| {
      WalkIsChild(children, key, i);
    }
  }

  // The root is found under no more than slashes: under "", "/" and, unless a child has no name, "//".
  lemma FindIsRoot(children: seq<Vnode>, path: seq<Byte>)
    ensures Find(children, path) == Root <==>
      path == [] || path == [47] ||
      (path == [47, 47] && forall j :: 0 <= j < |children| ==> children[j].name != [])
  {
    var key := Key(path);
    FirstIs(children, key);
    SlashIs(key);
    FirstNamedIs(children, key, 0);
    if path != [] && Rest(path) != [] && key == [] { assert Rest(path) == [47]; }
    if path == [47, 47] { assert path[1..] == [47] && [47][..0] == []; }
  }

  lemma WalkIsChild(children: seq<Vnode>, key: seq<Byte>, i: nat)
    requires forall j :: 0 <= j < |children| ==> children[j].name != key
    ensures WalkResult(children, key) == Child(i) <==>
      exists c :: Component(c) && key == c + [47] && FirstNamed(children, i, c)
  {
    SlashWithin(key);
    var c := key[..Slash(key)];
    SlashIs(key);
    FirstNamedIs(children, c, i);
    FirstIs(children, c);
    if WalkResult(children, key) == Child(i) {
      assert Slash(key) < |key|;
      assert key == c + [47];
      assert Component(c);
    }
    if d :| Component(d) && key == d + [47] && FirstNamed(children, i, d) {
      assert key[..|d|] == d;
      SlashAt(key, |d|);
    }
  }

  lemma {:induction false} SlashIs(path: seq<Byte>)
    ensures Slash(path) <= |path| && NoSlash(path[..Slash(path)])
    ensures Slash(path) < |path| ==> path[Slash(path)] == 47
    decreases |path|
  {
    if path != [] && path[0] != 47 {
      SlashIs(path[1..]);
      assert path[..Slash(path)] == [path[0]] + path[1..][..Slash(path) - 1];
    }
  }

  ghost predicate Distinct(children: seq<Vnode>) {
    forall i, j :: 0 <= i < j < |children| ==> children[i].name != children[j].name
  }

  lemma {:induction false} SlashWithin(path: seq<Byte>)
    ensures Slash(path) <= |path|
    decreases |path|
  {
    if path != [] { SlashWithin(path[1..]); }
  }

  // Opening "/" and the name finds the file itself exactly when something is left of the name after
  // "./" and it does not end in a slash, as the names of directories do.
  lemma OpensItself(children: seq<Vnode>, i: nat)
    requires Distinct(children) && i < |children| && |children[i].name| < 64
    ensures var name := children[i].name;
      Find(children, [47] + name) == Child(i) <==> name != [] && name[|name| - 1] != 47
  {
    var name := children[i].name;
    assert ([47] + name)[1..] == name;
    FirstIs(children, name);
    if name != [] && name[|name| - 1] == 47 {
      var tmp := name[..|name| - 1];
      FirstIs(children, tmp);
      SlashWithin(tmp);
      FirstIs(children, tmp[..Slash(tmp)]);
    }
  }

  // A directory's entry does not open under its own name:
  lemma DirectoryDoesNotOpen()
    ensures Find([Vnode([98, 47], 0, 512)], [47, 98, 47]) == Missing
  {
    var children, name := [Vnode([98, 47], 0, 512)], [98, 47];
    assert Key([47, 98, 47]) == [98] by { assert [47, 98, 47][1..] == name && name[..1] == [98]; }
    FirstAt(children, [98], 1);
    assert NoSlash([98][..1]);
    SlashAt([98], 1);
    assert [98][..1] == [98];
  }

  // ---- Reading ----

  // What of the file lies in [offset, offset + size).
  function Chunk(data: seq<Byte>, offset: nat, size: nat): seq<Byte> {
    if offset >= |data| then [] else if offset + size > |data| then data[offset..] else data[offset..offset + size]
  }

  // (int) of a size.
  function ToInt(n: nat): int {
    var w := n % 0x1_0000_0000;
    if w < 0x8000_0000 then w else w - 0x1_0000_0000
  }

  // The 32-bit number that equals n up to multiples of 2^32.
  lemma ToIntExact(n: nat, q: int, r: int)
    requires n == q * 0x1_0000_0000 + r && -0x8000_0000 <= r < 0x8000_0000
    ensures ToInt(n) == r
  {
    if r >= 0 {
      assert n % 0x1_0000_0000 == r;
    } else {
      assert n == (q - 1) * 0x1_0000_0000 + (r + 0x1_0000_0000);
      assert n % 0x1_0000_0000 == r + 0x1_0000_0000;
    }
  }

  // Where vfs_read leaves the offset after n bytes: it adds the count only if that is positive.
  function Advance(offset: nat, n: nat): nat { if ToInt(n) > 0 then offset + ToInt(n) else offset }

  lemma AdvanceIsExact(offset: nat, n: nat)
    ensures Advance(offset, n) <= offset + n
    ensures Advance(offset, n) == offset + n <==> n < 0x8000_0000
    ensures ToInt(n) == n <==> n < 0x8000_0000
  {
  }

  lemma SubSlice(a: seq<Byte>, from: nat, to: nat, i: nat, n: nat)
    requires from <= to <= |a| && i + n <= to - from
    ensures a[from..to][i..i + n] == a[from + i..from + i + n]
  {
    var s, t := a[from..to][i..i + n], a[from + i..from + i + n];
    forall k | 0 <= k < n ensures s[k] == t[k] {
      assert a[from..to][i + k] == a[from + i + k];
    }
  }

  // offset + size wraps around, to less than offset, and so passes the end-of-file test.
  predicate WrapsInto(length: nat, offset: nat, size: nat) {
    offset < length && offset + size >= 0x1_0000_0000_0000_0000
  }

  // What a read ends in: bytes and the count returned, or a copy past the end of the file.
  datatype Outcome = Copied(chunk: seq<Byte>, count: int) | Overrun

  class FileHandle {
    const archive: seq<Byte>
    const node: Vnode
    var offset: nat

    constructor (archive: seq<Byte>, node: Vnode)
      ensures this.archive == archive && this.node == node && offset == 0
    {
      this.archive, this.node, offset := archive, node, 0;
    }

    ghost predicate Valid()
      reads this
    {
      node.start + node.size <= |archive| && node.size < 0x1_0000_0000_0000_0000 && offset < 0x1_0000_0000_0000_0000
    }

    // The file's bytes.
    ghost function Data(): seq<Byte>
      requires node.start + node.size <= |archive|
    {
      archive[node.start..node.start + node.size]
    }

    // tar_read
    method TarRead(size: nat) returns (r: Outcome)
      requires Valid() && size < 0x1_0000_0000_0000_0000
      ensures r == Overrun <==> WrapsInto(node.size, offset, size)
      ensures r != Overrun ==> var chunk := Chunk(Data(), offset, size); r == Copied(chunk, ToInt(|chunk|))
    {
      if offset >= node.size {
        return Copied([], 0);
      }
      var n := size;
      if (offset + size) % 0x1_0000_0000_0000_0000 > node.size {
        n := node.size - offset;
      }
      if offset + n > node.size {
        return Overrun;  // memcpy leaves the file
      }
      var chunk := archive[node.start + offset..node.start + offset + n];
      SubSlice(archive, node.start, node.start + node.size, offset, n);
      r := Copied(chunk, ToInt(n));
    }

    // vfs_read: the offset follows the count returned.
    method Read(size: nat) returns (r: Outcome)
      requires Valid() && size < 0x1_0000_0000_0000_0000
      modifies this
      ensures Valid()
      ensures r == Overrun <==> WrapsInto(node.size, old(offset), size)
      ensures r == Overrun ==> offset == old(offset)
      ensures r != Overrun ==> var chunk := Chunk(Data(), old(offset), size);
        r == Copied(chunk, ToInt(|chunk|)) && offset == Advance(old(offset), |chunk|)
    {
      r := TarRead(size);
      if r.Copied? {
        if r.count > 0 {
          AdvanceIsExact(offset, |r.chunk|);
          offset := offset + r.count;
        }
      }
    }

    // A caller that reads in pieces and keeps what it gets. False: one read left the file.
    method ReadAll(sizes: seq<nat>) returns (all: seq<Byte>, ok: bool)
      requires Valid() && forall i :: 0 <= i < |sizes| ==> sizes[i] < 0x1_0000_0000_0000_0000
      modifies this
      ensures Valid() && (ok <==> StaysInside(Data(), old(offset), sizes))
      ensures if ok then all == Chunks(Data(), old(offset), sizes) else all <= Chunks(Data(), old(offset), sizes)
    {
      hide Chunk, Chunks, StaysInside, WrapsInto, Advance;
      all := [];
      ghost var start := offset;
      var i := 0;
      assert sizes[0..] == sizes;
      NothingLeft(Data(), 0);
      while i < |sizes|
        invariant Valid() && 0 <= i <= |sizes|
        invariant all + Chunks(Data(), offset, sizes[i..]) == Chunks(Data(), start, sizes)
        invariant StaysInside(Data(), start, sizes) <==> StaysInside(Data(), offset, sizes[i..])
      {
        OneRead(Data(), offset, sizes[i..]);
        var r := Read(sizes[i]);
        assert sizes[i..][0] == sizes[i] && sizes[i..][1..] == sizes[i + 1..];
        if r == Overrun {
          return all, false;
        }
        all := all + r.chunk;
        i := i + 1;
      }
      NothingLeft(Data(), offset);
      assert sizes[i..] == [];
      ok := true;
    }
  }

  // vfs_open for reading, on the archive's root directory. A handle on the directory itself is not
  // part of this model.
  method Open(a: seq<Byte>, children: seq<Vnode>, path: seq<Byte>) returns (r: Found, f: FileHandle?)
    ensures r == Find(children, path) && (f != null <==> r.Child? && r.index < |children|)
    ensures f != null ==> fresh(f) && f.archive == a && f.node == children[r.index] && f.offset == 0
  {
    r := FindVnode(children, path);
    f := null;
    if r.Child? && r.index < |children| {
      f := new FileHandle(a, children[r.index]);
    }
  }

  // ---- Reading in pieces ----

  function Sum(sizes: seq<nat>): nat { if sizes == [] then 0 else sizes[0] + Sum(sizes[1..]) }

  // What a run of reads of these sizes returns, from an offset on, with the offset that vfs_read keeps.
  function Chunks(data: seq<Byte>, offset: nat, sizes: seq<nat>): seq<Byte>
    decreases |sizes|
  {
    if sizes == [] then []
    else
      var chunk := Chunk(data, offset, sizes[0]);
      chunk + Chunks(data, Advance(offset, |chunk|), sizes[1..])
  }

  // No read of the run leaves the file.
  predicate StaysInside(data: seq<Byte>, offset: nat, sizes: seq<nat>)
    decreases |sizes|
  {
    sizes != [] ==>
      !WrapsInto(|data|, offset, sizes[0]) &&
      StaysInside(data, Advance(offset, |Chunk(data, offset, sizes[0])|), sizes[1..])
  }

  // None does whose size and the file's together fit 64 bits.
  lemma {:induction false} SmallStaysInside(data: seq<Byte>, offset: nat, sizes: seq<nat>)
    requires forall i :: 0 <= i < |sizes| ==> |data| + sizes[i] <= 0x1_0000_0000_0000_0000
    ensures StaysInside(data, offset, sizes)
    decreases |sizes|
  {
    if sizes != [] { SmallStaysInside(data, Advance(offset, |Chunk(data, offset, sizes[0])|), sizes[1..]); }
  }

  // Every read that another one follows returns fewer than 2^31 bytes.
  predicate CountedBefore(data: seq<Byte>, offset: nat, sizes: seq<nat>)
    decreases |sizes|
  {
    |sizes| > 1 ==>
      var n := |Chunk(data, offset, sizes[0])|;
      n < 0x8000_0000 && CountedBefore(data, Advance(offset, n), sizes[1..])
  }

  lemma {:induction false} SmallFileCounted(data: seq<Byte>, offset: nat, sizes: seq<nat>)
    requires |data| < 0x8000_0000
    ensures CountedBefore(data, offset, sizes)
    decreases |sizes|
  {
    if |sizes| > 1 { SmallFileCounted(data, Advance(offset, |Chunk(data, offset, sizes[0])|), sizes[1..]); }
  }

  // The bytes from i up to j or the end of the file.
  function Part(data: seq<Byte>, i: nat, j: nat): seq<Byte>
    requires i <= |data|
  {
    if j < i then [] else if j > |data| then data[i..] else data[i..j]
  }

  lemma PartJoin(data: seq<Byte>, i: nat, j: nat, k: nat)
    requires i <= j <= k && i <= |data|
    ensures Part(data, i, k) == if j <= |data| then Part(data, i, j) + Part(data, j, k) else Part(data, i, j)
  {
  }

  lemma {:induction false} ChunksConcat(data: seq<Byte>, offset: nat, sizes: seq<nat>)
    requires offset <= |data| && CountedBefore(data, offset, sizes)
    ensures Chunks(data, offset, sizes) == Part(data, offset, offset + Sum(sizes))
    decreases |sizes|
  {
    hide *;
    if sizes == [] {
      NoChunks(data, offset);
    } else if |sizes| == 1 {
      LastChunk(data, offset, sizes);
    } else {
      var k := if offset + sizes[0] > |data| then |data| else offset + sizes[0];
      NextCounted(data, offset, sizes, k);
      FirstChunk(data, offset, sizes, k);
      ChunksConcat(data, k, sizes[1..]);
      PartsJoin(data, offset, k, sizes[0], Sum(sizes[1..]));
    }
  }

  lemma NextCounted(data: seq<Byte>, offset: nat, sizes: seq<nat>, k: nat)
    requires offset <= |data| && |sizes| > 1 && CountedBefore(data, offset, sizes)
    requires k == if offset + sizes[0] > |data| then |data| else offset + sizes[0]
    ensures k - offset < 0x8000_0000 && CountedBefore(data, k, sizes[1..])
  {
    hide Advance;
    assert |Chunk(data, offset, sizes[0])| == k - offset;
    AdvanceIsExact(offset, k - offset);
  }

  lemma LastChunk(data: seq<Byte>, offset: nat, sizes: seq<nat>)
    requires offset <= |data| && |sizes| == 1
    ensures Chunks(data, offset, sizes) == Part(data, offset, offset + Sum(sizes))
  {
    hide Chunks, Sum;
    ChunksUnfold(data, offset, sizes);
    assert sizes[1..] == [];
    NothingLeft(data, Advance(offset, |Chunk(data, offset, sizes[0])|));
  }

  lemma OneRead(data: seq<Byte>, offset: nat, sizes: seq<nat>)
    requires sizes != []
    ensures var chunk := Chunk(data, offset, sizes[0]); var next := Advance(offset, |chunk|);
      Chunks(data, offset, sizes) == chunk + Chunks(data, next, sizes[1..]) &&
      (StaysInside(data, offset, sizes) <==>
        !WrapsInto(|data|, offset, sizes[0]) && StaysInside(data, next, sizes[1..]))
  {
    hide Chunk, Advance, WrapsInto;
  }

  lemma NothingLeft(data: seq<Byte>, offset: nat)
    ensures Chunks(data, offset, []) == [] && Sum([]) == 0 && StaysInside(data, offset, [])
  {
  }

  lemma NoChunks(data: seq<Byte>, offset: nat)
    requires offset <= |data|
    ensures Chunks(data, offset, []) == Part(data, offset, offset + Sum([]))
  {
  }

  lemma PartsJoin(data: seq<Byte>, offset: nat, k: nat, a: nat, b: nat)
    requires offset <= |data| && k == if offset + a > |data| then |data| else offset + a
    ensures Part(data, offset, k) + Part(data, k, k + b) == Part(data, offset, offset + (a + b))
  {
    if offset + a <= |data| { PartJoin(data, offset, k, k + b); }
  }

  lemma FirstChunk(data: seq<Byte>, offset: nat, sizes: seq<nat>, k: nat)
    requires offset <= |data| && sizes != [] && k - offset < 0x8000_0000
    requires k == if offset + sizes[0] > |data| then |data| else offset + sizes[0]
    ensures Chunks(data, offset, sizes) == Part(data, offset, k) + Chunks(data, k, sizes[1..])
    ensures Sum(sizes) == sizes[0] + Sum(sizes[1..])
  {
    hide Chunks, Sum;
    ChunksUnfold(data, offset, sizes);
    assert Chunk(data, offset, sizes[0]) == Part(data, offset, k);
    AdvanceIsExact(offset, k - offset);
  }

  lemma ChunksUnfold(data: seq<Byte>, offset: nat, sizes: seq<nat>)
    requires sizes != []
    ensures Sum(sizes) == sizes[0] + Sum(sizes[1..])
    ensures var chunk := Chunk(data, offset, sizes[0]);
      Chunks(data, offset, sizes) == chunk + Chunks(data, Advance(offset, |chunk|), sizes[1..])
  {
    hide Chunk, Advance;
  }

  // Reads of any sizes together give exactly the file once they add up to it, if the file is below 2 GiB
  // or if every read but the last returns fewer than 2^31 bytes.
  lemma ReadsGiveFile(data: seq<Byte>, sizes: seq<nat>)
    requires |data| < 0x8000_0000 || CountedBefore(data, 0, sizes)
    ensures Chunks(data, 0, sizes) == data <==> Sum(sizes) >= |data|
  {
    if |data| < 0x8000_0000 { SmallFileCounted(data, 0, sizes); }
    ChunksConcat(data, 0, sizes);
  }

  // The offset keeps up with the bytes returned exactly as long as every read returns fewer than 2^31.
  lemma {:induction false} OffsetKeepsUp(data: seq<Byte>, offset: nat, sizes: seq<nat>)
    ensures Reached(data, offset, sizes) <= offset + |Chunks(data, offset, sizes)|
    ensures Reached(data, offset, sizes) == offset + |Chunks(data, offset, sizes)| <==> AllCounted(data, offset, sizes)
    decreases |sizes|
  {
    if sizes != [] {
      var n := |Chunk(data, offset, sizes[0])|;
      AdvanceIsExact(offset, n);
      OffsetKeepsUp(data, Advance(offset, n), sizes[1..]);
    }
  }

  // The offset after such a run.
  function Reached(data: seq<Byte>, offset: nat, sizes: seq<nat>): nat
    decreases |sizes|
  {
    if sizes == [] then offset else Reached(data, Advance(offset, |Chunk(data, offset, sizes[0])|), sizes[1..])
  }

  predicate AllCounted(data: seq<Byte>, offset: nat, sizes: seq<nat>)
    decreases |sizes|
  {
    sizes != [] ==>
      var n := |Chunk(data, offset, sizes[0])|;
      n < 0x8000_0000 && AllCounted(data, Advance(offset, n), sizes[1..])
  }

  // A file of 4 GiB, read in two halves of 2 GiB: the second read returns the first half again.
  function LargeFile(): seq<Byte> { seq(0x1_0000_0000, i => if i == 0x8000_0000 then 2 else 1) }

  lemma LongReadsRepeat()
    ensures var data, sizes := LargeFile(), [0x8000_0000, 0x8000_0000];
      Sum(sizes) >= |data| && Chunks(data, 0, sizes) != data
  {
    var data := LargeFile();
    var first := Chunk(data, 0, 0x8000_0000);
    assert |first| == 0x8000_0000 && first[0] == 1;
    assert Advance(0, |first|) == 0;
    assert [0x8000_0000, 0x8000_0000][1..] == [0x8000_0000];
    assert [0x8000_0000][1..] == [];
    assert Sum([0x8000_0000]) == 0x8000_0000;
    assert Chunks(data, 0, [0x8000_0000]) == first + [];
    assert Chunks(data, 0, [0x8000_0000, 0x8000_0000]) == first + Chunks(data, 0, [0x8000_0000]);
    assert (first + (first + []))[0x8000_0000] == first[0];
  }

  // The round trip: parse, open by name, read in pieces. The file is archived as "./" + n, or as n.
  lemma RoundTrip(a: seq<Byte>, children: seq<Vnode>, files: seq<File>, i: nat, n: seq<Byte>, sizes: seq<nat>)
    requires Mounted(a, children, files) && i < |files| && Distinct(children)
    requires files[i].name == [46, 47] + n || (files[i].name == n && !([46, 47] <= n))
    requires 0 < |n| < 64 && n[|n| - 1] != 47
    requires |files[i].data| < 0x8000_0000 || CountedBefore(files[i].data, 0, sizes)
    ensures Find(children, [47] + n) == Child(i) && children[i].name == n && children[i].size == |files[i].data|
    ensures var v := children[i];
      v.start + v.size <= |a| &&
      (Chunks(a[v.start..v.start + v.size], 0, sizes) == files[i].data <==> Sum(sizes) >= |files[i].data|)
  {
    hide Find;
    assert Stands(a, children[i], files[i]);
    ShownOnce(files[i].name, n, children[i].name);
    OpensItself(children, i);
    ReadsGiveFile(files[i].data, sizes);
  }
}
