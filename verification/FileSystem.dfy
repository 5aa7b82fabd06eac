/** The read-only file system image: directory lookup, block-wise reads, and reading programs. */
module FileSystem {
  import opened Basics

  const NAME_LENGTH: nat := 32
  const ENTRIES: nat := 63
  const BLOCK: nat := 4096
  const INODE_BLOCKS: nat := 1023

  /** A NUL-terminated string, without its terminator. */
  type CString = s: seq<byte> | NUL !in s witness []

  datatype Dentry = Dentry(name: seq<byte>, fileType: nat, inode: nat)
  datatype Inode = Inode(length: nat, blocks: seq<nat>)
  datatype Image = Image(dentries: seq<Dentry>, inodes: seq<Inode>, data: seq<seq<byte>>)

  ghost predicate DentryOk(d: Dentry) { |d.name| == NAME_LENGTH && d.fileType < 256 }

  ghost predicate InodeOk(n: Inode) { |n.blocks| == INODE_BLOCKS && n.length <= INODE_BLOCKS * BLOCK }

  ghost predicate ImageOk(img: Image) {
    && |img.dentries| == ENTRIES && (forall i | 0 <= i < ENTRIES :: DentryOk(img.dentries[i]))
    && (forall i | 0 <= i < |img.inodes| :: InodeOk(img.inodes[i]))
    && (forall i | 0 <= i < |img.data| :: |img.data[i]| == BLOCK)
  }

  // ---------------------------------------------------------------- names

  /** The string that starts at the head of `s`: everything before the first NUL. */
  function CName(s: seq<byte>): (r: CString)
    ensures |r| <= |s| && r == s[..|r|] && (|r| < |s| ==> s[|r|] == NUL)
  {
    if s == [] || s[0] == NUL then [] else [s[0]] + CName(s[1..])
  }

  lemma {:induction false} CNameUnique(s: seq<byte>, k: nat)
    requires k <= |s| && NUL !in s[..k] && (k < |s| ==> s[k] == NUL)
    ensures CName(s) == s[..k]
  {
    if k > 0 {
      assert s[..k][0] == s[0] && s[..k][1..] == s[1..][..k - 1];
      CNameUnique(s[1..], k - 1);
    }
  }

  lemma {:induction false} CNameLongerThan(s: seq<byte>, k: nat)
    requires k <= |s| && NUL !in s[..k]
    ensures |CName(s)| >= k
  {
    if k > 0 {
      assert s[..k][0] == s[0] && s[..k][1..] == s[1..][..k - 1];
      CNameLongerThan(s[1..], k - 1);
    }
  }

  /** The byte at `fname[j]`, its terminator included. */
  function CharAt(fname: CString, j: nat): byte
    requires j <= |fname|
  {
    if j < |fname| then fname[j] else NUL
  }

  /** The first entry whose name is exactly `fname`. */
  function FindFrom(ds: seq<Dentry>, fname: CString, i: nat): (r: Option<nat>)
    requires i <= |ds|
    ensures r.Some? ==> i <= r.value < |ds| && CName(ds[r.value].name) == fname
                        && forall k | i <= k < r.value :: CName(ds[k].name) != fname
    ensures r.None? ==> forall k | i <= k < |ds| :: CName(ds[k].name) != fname
    decreases |ds| - i
  {
    if i == |ds| then None else if CName(ds[i].name) == fname then Some(i) else FindFrom(ds, fname, i + 1)
  }

  function Lookup(img: Image, fname: CString): Option<Dentry> {
    if |fname| == 0 || |fname| > NAME_LENGTH then None
    else match FindFrom(img.dentries, fname, 0)
      case None => None
      case Some(i) => Some(img.dentries[i])
  }

  /** The comparison loop of `read_dentry_by_name` on one entry. */
  method SameName(fname: CString, name: seq<byte>) returns (found: bool)
    requires 0 < |fname| <= NAME_LENGTH == |name|
    ensures found <==> CName(name) == fname
  {
    found := false;
    var j := 0;
    while j < NAME_LENGTH
      invariant !found && j < NAME_LENGTH && j <= |fname| && fname[..j] == name[..j]
    {
      if CharAt(fname, j) == name[j] {
        if CharAt(fname, j) == NUL || j == 31 {
          assert CName(name) == fname by {
            if j < |fname| { assert name == fname[..j] + [fname[j]]; }
            CNameUnique(name, if j == |fname| then j else NAME_LENGTH);
          }
          found := true;
          break;
        }
      } else {
        break;
      }
      j := j + 1;
    }
  }

  method ReadDentryByName(img: Image, fname: CString) returns (r: Option<Dentry>)
    requires ImageOk(img)
    ensures r == Lookup(img, fname)
  {
    if |fname| > NAME_LENGTH { return None; }
    if |fname| == 0 { return None; }
    var i := 0;
    while i < ENTRIES
      invariant 0 <= i <= ENTRIES
      invariant FindFrom(img.dentries, fname, 0) == FindFrom(img.dentries, fname, i)
    {
      assert DentryOk(img.dentries[i]);
      var found := SameName(fname, img.dentries[i].name);
      if found { return Some(img.dentries[i]); }
      i := i + 1;
    }
    return None;
  }

  method ReadDentryByIndex(img: Image, index: nat) returns (r: Option<Dentry>)
    requires ImageOk(img)
    ensures r == if index <= 62 then Some(img.dentries[index]) else None
  {
    if index > 62 { return None; }
    return Some(img.dentries[index]);
  }

  /** A name lookup succeeds exactly for a string of 1 to 32 bytes that is the full name of some entry. */
  lemma LookupExact(img: Image, fname: CString)
    requires ImageOk(img)
    ensures Lookup(img, fname).Some? <==>
              0 < |fname| && exists i | 0 <= i < ENTRIES :: CName(img.dentries[i].name) == fname
    ensures Lookup(img, fname).Some? ==>
              exists i | 0 <= i < ENTRIES ::
                && Lookup(img, fname) == Some(img.dentries[i]) && CName(img.dentries[i].name) == fname
                && forall k | 0 <= k < i :: CName(img.dentries[k].name) != fname
  {
    var found := FindFrom(img.dentries, fname, 0);
    forall i | 0 <= i < ENTRIES && CName(img.dentries[i].name) == fname ensures |fname| <= NAME_LENGTH {
      assert DentryOk(img.dentries[i]);
    }
  }

  // ---------------------------------------------------------------- directory listing

  /** The bytes at and after `file_name`: the name field, then the little-endian type. */
  function NameAndType(d: Dentry): seq<byte>
    requires d.fileType < 256
  {
    d.name + [d.fileType as byte, 0, 0, 0]
  }

  /** What one `directory_read` of `n` bytes delivers for entry `d`. */
  function Listed(d: Dentry, n: nat): seq<byte>
    requires d.fileType < 256
  {
    CName(NameAndType(d))[..Min(n, |CName(NameAndType(d))|)]
  }

  lemma ListedIsPrefix(d: Dentry, n: nat, i: nat)
    requires DentryOk(d) && i <= n && i < 36 && NUL !in NameAndType(d)[..i]
    requires i == n || NameAndType(d)[i] == NUL
    ensures Listed(d, n) == NameAndType(d)[..i]
  {
    var bytes := NameAndType(d);
    if bytes[i] == NUL {
      CNameUnique(bytes, i);
    } else {
      CNameLongerThan(bytes, i);
    }
  }

  lemma ListedReaches(d: Dentry, n: nat, i: nat)
    requires DentryOk(d) && i < n && i < 36 && NUL !in NameAndType(d)[..i] && NameAndType(d)[i] != NUL
    ensures i < |Listed(d, n)|
  {
    CNameLongerThan(NameAndType(d), i + 1);
  }

  method DirectoryRead(img: Image, position: nat, buf: array<byte>, at: nat, n: nat)
    returns (r: int, position': nat)
    requires ImageOk(img)
    requires position <= 62 ==> at + |Listed(img.dentries[position], n)| <= buf.Length
    modifies buf
    ensures position > 62 ==> r == -1 && position' == position && buf[..] == old(buf[..])
    ensures position <= 62 ==>
              var out := Listed(img.dentries[position], n);
              && r == |out| && position' == position + 1 && |out| <= n
              && buf[at..at + |out|] == out
              && forall k | 0 <= k < buf.Length && !(at <= k < at + |out|) :: buf[k] == old(buf[k])
  {
    position' := position;
    var d := ReadDentryByIndex(img, position);
    if d.None? { return -1, position; }
    assert DentryOk(img.dentries[position]);
    var bytes := NameAndType(d.value);
    assert bytes[33] == NUL;
    var i := 0;
    while i < n
      invariant 0 <= i <= n && i < |bytes| && NUL !in bytes[..i] && at + i <= buf.Length
      invariant buf[at..at + i] == bytes[..i]
      invariant forall k | 0 <= k < buf.Length && !(at <= k < at + i) :: buf[k] == old(buf[k])
    {
      if bytes[i] == NUL { break; }
      assert i < 33;
      ListedReaches(d.value, n, i);
      buf[at + i] := bytes[i];
      i := i + 1;
    }
    ListedIsPrefix(d.value, n, i);
    return i, position + 1;
  }

  /** A listing gives the whole name unless a 32-byte name runs on into the type field. */
  lemma ListingIsName(d: Dentry, n: nat)
    requires DentryOk(d)
    ensures Listed(d, n) == CName(d.name)[..Min(n, |CName(d.name)|)] <==>
              !(n > NAME_LENGTH && |CName(d.name)| == NAME_LENGTH && d.fileType != 0)
    ensures n > NAME_LENGTH && |CName(d.name)| == NAME_LENGTH && d.fileType != 0 ==>
              Listed(d, n) == d.name + [d.fileType as byte]
  {
    var name := CName(d.name);
    if |name| < NAME_LENGTH {
      CNameUnique(NameAndType(d), |name|);
    } else if d.fileType == 0 {
      CNameUnique(NameAndType(d), NAME_LENGTH);
    } else {
      assert NameAndType(d)[..33] == d.name + [d.fileType as byte];
      CNameUnique(NameAndType(d), 33);
    }
  }

  /** Every nonempty name listed with a 32-byte read is found again, under that same name. */
  lemma ListedNameIsFound(img: Image, position: nat)
    requires ImageOk(img) && position <= 62
    ensures var name := Listed(img.dentries[position], NAME_LENGTH);
            && NUL !in name
            && (name != [] ==> Lookup(img, name).Some? && CName(Lookup(img, name).value.name) == name)
  {
    var d := img.dentries[position];
    assert DentryOk(d);
    ListingIsName(d, NAME_LENGTH);
    assert CName(d.name)[..Min(NAME_LENGTH, |CName(d.name)|)] == CName(d.name);
    LookupExact(img, CName(d.name));
  }

  /** The open functions of the drivers look the name up again and check the type. */
  method OpenAs(img: Image, fname: CString, fileType: nat) returns (r: int)
    requires ImageOk(img)
    ensures r == if Lookup(img, fname).Some? && Lookup(img, fname).value.fileType == fileType then 0 else -1
  {
    var entry := ReadDentryByName(img, fname);
    if entry.None? { return -1; }
    if entry.value.fileType != fileType { return -1; }
    return 0;
  }

  // ---------------------------------------------------------------- file contents

  function Blocks(length: nat): nat { (length + BLOCK - 1) / BLOCK }

  /** Every block the file needs exists. */
  ghost predicate ValidFile(img: Image, inode: nat) {
    && inode < |img.inodes|
    && forall k | 0 <= k < Blocks(img.inodes[inode].length) && k < |img.inodes[inode].blocks| ::
         img.inodes[inode].blocks[k] < |img.data|
  }

  /** The data blocks in file order, one after the other. */
  function Joined(img: Image, blocks: seq<nat>): seq<byte>
    requires forall k | 0 <= k < |blocks| :: blocks[k] < |img.data|
  {
    if blocks == [] then [] else img.data[blocks[0]] + Joined(img, blocks[1..])
  }

  lemma {:induction false} JoinedAt(img: Image, blocks: seq<nat>, i: nat)
    requires forall k | 0 <= k < |blocks| :: blocks[k] < |img.data| && |img.data[blocks[k]]| == BLOCK
    requires i < |blocks| * BLOCK
    ensures |Joined(img, blocks)| == |blocks| * BLOCK
    ensures Joined(img, blocks)[i] == img.data[blocks[i / BLOCK]][i % BLOCK]
  {
    if |blocks| > 1 {
      JoinedAt(img, blocks[1..], if i < BLOCK then 0 else i - BLOCK);
    } else {
      assert Joined(img, blocks[1..]) == [];
    }
    if i >= BLOCK { assert (i - BLOCK) / BLOCK == i / BLOCK - 1 && (i - BLOCK) % BLOCK == i % BLOCK; }
  }

  /** The bytes of a file: its blocks joined and cut to its length. */
  ghost function Contents(img: Image, inode: nat): (r: seq<byte>)
    requires ImageOk(img) && ValidFile(img, inode)
    ensures |r| == img.inodes[inode].length
  {
    var n := img.inodes[inode];
    assert InodeOk(n);
    var blocks := n.blocks[..Blocks(n.length)];
    if n.length == 0 then []
    else
      JoinedAt(img, blocks, n.length - 1);
      Joined(img, blocks)[..n.length]
  }

  /** The byte `read_data` fetches for file offset `i`. */
  lemma ContentsAt(img: Image, inode: nat, i: nat)
    requires ImageOk(img) && ValidFile(img, inode) && i < img.inodes[inode].length
    ensures var n := img.inodes[inode];
            && i / BLOCK < |n.blocks| && n.blocks[i / BLOCK] < |img.data| && i % BLOCK < |img.data[n.blocks[i / BLOCK]]|
            && Contents(img, inode)[i] == img.data[n.blocks[i / BLOCK]][i % BLOCK]
  {
    var n := img.inodes[inode];
    assert InodeOk(n);
    JoinedAt(img, n.blocks[..Blocks(n.length)], i);
    assert |img.data[n.blocks[i / BLOCK]]| == BLOCK;
  }

  /** Where a read stops; the sum of offset and length is a `uint32_t` and may wrap. */
  function UpperBound(size: nat, offset: nat, length: nat): nat {
    var sum := (offset + length) % TWO_32;
    if sum > size then size else sum
  }

  /** Every byte from `lo` up to `hi` lies in an existing block. */
  ghost predicate GoodRange(img: Image, inode: nat, lo: nat, hi: nat)
    requires ImageOk(img) && inode < |img.inodes|
  {
    forall i | lo <= i < hi && i / BLOCK < |img.inodes[inode].blocks| ::
      img.inodes[inode].blocks[i / BLOCK] < |img.data|
  }

  /** The byte `read_data` stores for file offset `i`, which need not belong to a valid file. */
  ghost predicate StoredAt(img: Image, inode: nat, i: nat, b: byte)
    requires ImageOk(img) && inode < |img.inodes|
  {
    var blocks := img.inodes[inode].blocks;
    && i / BLOCK < |blocks| && blocks[i / BLOCK] < |img.data|
    && i % BLOCK < |img.data[blocks[i / BLOCK]]| && b == img.data[blocks[i / BLOCK]][i % BLOCK]
  }

  ghost predicate StoredFrom(img: Image, inode: nat, offset: nat, bytes: seq<byte>)
    requires ImageOk(img) && inode < |img.inodes|
  {
    forall j | 0 <= j < |bytes| :: StoredAt(img, inode, offset + j, bytes[j])
  }

  /** `read_data`: fails for a zero length or a missing block, else copies up to the bound and returns the count. */
  method ReadData(img: Image, inode: nat, offset: nat, buf: array<byte>, at: nat, length: nat) returns (r: int)
    requires ImageOk(img) && inode < |img.inodes|
    requires offset < 0x8000_0000 && length < TWO_32
    requires at <= buf.Length && at + (UpperBound(img.inodes[inode].length, offset, length) - offset) <= buf.Length
    modifies buf
    ensures var bound := UpperBound(img.inodes[inode].length, offset, length);
            && r == (if length == 0 || !GoodRange(img, inode, offset, bound) then -1 else bound - offset)
            && (r > 0 ==> StoredFrom(img, inode, offset, buf[at..at + r]))
            && (r > 0 && ValidFile(img, inode) ==>
                  offset <= bound <= |Contents(img, inode)| && buf[at..at + r] == Contents(img, inode)[offset..bound])
            && (r >= 0 || ValidFile(img, inode) ==>
                  forall k | 0 <= k < buf.Length && !(at <= k < at + r) :: buf[k] == old(buf[k]))
  {
    hide ValidFile, Contents, StoredAt;
    var node := img.inodes[inode];
    assert InodeOk(node);
    if length == 0 { return -1; }
    var sum := (offset + length) % TWO_32;
    var upperbound := if sum > node.length then node.length else sum;
    if ValidFile(img, inode) { ValidIsGood(img, inode, offset, upperbound); }
    var i := offset;
    while i < upperbound
      invariant offset <= i && (i <= upperbound || i == offset)
      invariant GoodRange(img, inode, offset, i)
      invariant StoredFrom(img, inode, offset, buf[at..at + (i - offset)])
      invariant forall k | 0 <= k < buf.Length && !(at <= k < at + (i - offset)) :: buf[k] == old(buf[k])
    {
      var global := node.blocks[i / BLOCK];
      if global >= |img.data| { return -1; }
      assert |img.data[global]| == BLOCK;
      ghost var before := buf[at..at + (i - offset)];
      buf[at + (i - offset)] := img.data[global][i % BLOCK];
      StoreNext(img, inode, offset, before, img.data[global][i % BLOCK]);
      assert buf[at..at + (i + 1 - offset)] == before + [img.data[global][i % BLOCK]];
      i := i + 1;
    }
    if ValidFile(img, inode) && i > offset { StoredIsContent(img, inode, offset, buf[at..at + (i - offset)]); }
    return upperbound - offset;
  }

  lemma StoreNext(img: Image, inode: nat, offset: nat, bytes: seq<byte>, b: byte)
    requires ImageOk(img) && inode < |img.inodes| && StoredFrom(img, inode, offset, bytes)
    requires var blocks, i := img.inodes[inode].blocks, offset + |bytes|;
             && i / BLOCK < |blocks| && blocks[i / BLOCK] < |img.data|
             && i % BLOCK < |img.data[blocks[i / BLOCK]]| && b == img.data[blocks[i / BLOCK]][i % BLOCK]
    ensures StoredFrom(img, inode, offset, bytes + [b])
  {
    assert StoredAt(img, inode, offset + |bytes|, b);
    hide StoredAt;
  }

  /** What is stored from a valid file are its contents. */
  lemma StoredIsContent(img: Image, inode: nat, offset: nat, bytes: seq<byte>)
    requires ImageOk(img) && ValidFile(img, inode) && StoredFrom(img, inode, offset, bytes)
    requires offset + |bytes| <= img.inodes[inode].length
    ensures bytes == Contents(img, inode)[offset..offset + |bytes|]
  {
    var content := Contents(img, inode);
    hide Contents;
    forall j | 0 <= j < |bytes| ensures bytes[j] == content[offset + j] {
      assert StoredAt(img, inode, offset + j, bytes[j]);
      ContentsAt(img, inode, offset + j);
    }
  }

  /** A read of a valid file never meets a missing block. */
  lemma ValidIsGood(img: Image, inode: nat, lo: nat, hi: nat)
    requires ImageOk(img) && ValidFile(img, inode) && hi <= img.inodes[inode].length
    ensures GoodRange(img, inode, lo, hi)
  {
    forall i | lo <= i < hi && i / BLOCK < |img.inodes[inode].blocks|
      ensures img.inodes[inode].blocks[i / BLOCK] < |img.data|
    {
      ContentsAt(img, inode, i);
    }
  }

  // ---------------------------------------------------------------- reading through a position

  const MAX_INODE: nat := 64

  /** `file_read` on a valid file: its result, the new position, and the bytes delivered. */
  datatype ReadResult = ReadResult(value: int, position: int, bytes: seq<byte>)

  function ReadStep(content: seq<byte>, position: nat, nbytes: nat): ReadResult
    requires position <= |content| && nbytes < TWO_32
  {
    var n := UpperBound(|content|, position, nbytes) - position;
    if nbytes == 0 || n == -1 then ReadResult(-1, position, [])
    else ReadResult(n, position + n, if n > 0 then content[position..position + n] else [])
  }

  /**
   * `file_read` on a descriptor with this inode and position: inode numbers above 64 are refused,
   * and a missing block fails without moving the position.
   */
  method FileRead(img: Image, inode: nat, position: nat, buf: array<byte>, at: nat, nbytes: nat)
    returns (r: int, position': nat)
    requires ImageOk(img) && inode < |img.inodes| && position <= img.inodes[inode].length && nbytes < TWO_32
    requires at <= buf.Length
    requires at + (UpperBound(img.inodes[inode].length, position, nbytes) - position) <= buf.Length
    modifies buf
    ensures position' <= img.inodes[inode].length && position' == (if r == -1 then position else position + r)
    ensures inode > MAX_INODE ==> r == -1 && buf[..] == old(buf[..])
    ensures inode <= MAX_INODE && ValidFile(img, inode) ==>
              var s := ReadStep(Contents(img, inode), position, nbytes);
              && r == s.value && position' == s.position && at + |s.bytes| <= buf.Length
              && buf[at..at + |s.bytes|] == s.bytes
              && forall k | 0 <= k < buf.Length && !(at <= k < at + |s.bytes|) :: buf[k] == old(buf[k])
  {
    assert InodeOk(img.inodes[inode]);
    if inode > MAX_INODE { return -1, position; }
    if nbytes == 0 { return -1, position; }
    ghost var bound := UpperBound(img.inodes[inode].length, position, nbytes);
    if ValidFile(img, inode) { ValidIsGood(img, inode, position, bound); }
    hide ValidFile, Contents, GoodRange;
    r := ReadData(img, inode, position, buf, at, nbytes);
    if r == -1 { return -1, position; }
    return r, position + r;
  }

  /** The descriptor a user program holds on an open regular file. */
  class OpenFile {
    const img: Image
    const inode: nat
    var position: nat

    ghost predicate Valid()
      reads this
    {
      && ImageOk(img) && ValidFile(img, inode)
      && position <= |Contents(img, inode)| < 0x8000_0000
    }

    constructor (img: Image, inode: nat)
      requires ImageOk(img) && ValidFile(img, inode)
      ensures Valid() && this.img == img && this.inode == inode && position == 0
    {
      this.img, this.inode, this.position := img, inode, 0;
      assert InodeOk(img.inodes[inode]);
    }

    method Read(buf: array<byte>, at: nat, nbytes: nat) returns (r: int)
      requires Valid() && nbytes < TWO_32 && at <= buf.Length
      requires at + |ReadStep(Contents(img, inode), position, nbytes).bytes| <= buf.Length
      modifies this`position, buf
      ensures Valid()
      ensures inode > MAX_INODE ==> r == -1 && position == old(position) && buf[..] == old(buf[..])
      ensures inode <= MAX_INODE ==>
              var s := ReadStep(Contents(img, inode), old(position), nbytes);
              && r == s.value && position == s.position
              && buf[at..at + |s.bytes|] == s.bytes
              && forall k | 0 <= k < buf.Length && !(at <= k < at + |s.bytes|) :: buf[k] == old(buf[k])
    {
      r, position := FileRead(img, inode, position, buf, at, nbytes);
    }
  }

  /**
   * What a read returns for every count: nothing and -1 for none, the next bytes up to the end if the
   * 32-bit sum does not wrap. Reading leaves the position inside the file, and never behind where it
   * was exactly when the sum does not wrap (a negative `nbytes` wraps it: the position moves back).
   */
  lemma ReadKeepsPosition(content: seq<byte>, position: nat, nbytes: nat)
    requires position <= |content| < 0x8000_0000 && nbytes < TWO_32
    ensures var s := ReadStep(content, position, nbytes);
            && 0 <= s.position <= |content|
            && (s.position >= position <==> position + nbytes < TWO_32 || nbytes == TWO_32 - 1)
            && (nbytes == 0 || (position + nbytes >= TWO_32 && nbytes == TWO_32 - 1) ==>
                  s.value == -1 && s.position == position && s.bytes == [])
            && (position + nbytes >= TWO_32 && nbytes != TWO_32 - 1 ==>
                  s.value == nbytes - TWO_32 && s.position == position + s.value && s.bytes == [])
            && (nbytes > 0 && position + nbytes < TWO_32 ==>
                  s.value == |s.bytes| == Min(nbytes, |content| - position)
                  && s.position == position + s.value && s.bytes == content[position..s.position])
  {
  }

  /** Reads of the given sizes, one after the other: the bytes delivered and the final position. */
  function ReadAll(content: seq<byte>, position: nat, sizes: seq<nat>): (seq<byte>, nat)
    requires position <= |content| < 0x8000_0000
    requires forall i | 0 <= i < |sizes| :: 0 < sizes[i] < 0x8000_0000
    decreases |sizes|
  {
    if sizes == [] then ([], position)
    else
      ReadKeepsPosition(content, position, sizes[0]);
      var s := ReadStep(content, position, sizes[0]);
      var (rest, end) := ReadAll(content, s.position, sizes[1..]);
      (s.bytes + rest, end)
  }

  function Sum(sizes: seq<nat>): nat { if sizes == [] then 0 else sizes[0] + Sum(sizes[1..]) }

  /** Whatever the sizes, the bytes delivered are the next ones of the file, each once and in order. */
  lemma {:induction false} ReadsAreConsecutive(content: seq<byte>, position: nat, sizes: seq<nat>)
    requires position <= |content| < 0x8000_0000
    requires forall i | 0 <= i < |sizes| :: 0 < sizes[i] < 0x8000_0000
    ensures var (bytes, end) := ReadAll(content, position, sizes);
            && end == Min(|content|, position + Sum(sizes))
            && position <= end && bytes == content[position..end]
    decreases |sizes|
  {
    hide ReadStep;
    if sizes != [] {
      ReadKeepsPosition(content, position, sizes[0]);
      ReadsAreConsecutive(content, ReadStep(content, position, sizes[0]).position, sizes[1..]);
    }
  }

  /** The loop of `cat`: read 1024 bytes at a time until a read returns 0, writing out each chunk. */
  method Cat(file: OpenFile, buf: array<byte>) returns (status: int, out: seq<byte>)
    requires file.Valid() && buf.Length == 1024
    modifies file`position, buf
    ensures file.inode <= MAX_INODE ==> status == 0 && out == Contents(file.img, file.inode)[old(file.position)..]
    ensures file.inode > MAX_INODE ==> status == 3 && out == []
  {
    hide Contents, ValidFile, ReadStep;
    ghost var content := Contents(file.img, file.inode);
    ghost var start := file.position;
    out := [];
    ReadKeepsPosition(content, file.position, 1024);
    var cnt := file.Read(buf, 0, 1024);
    while cnt != 0
      invariant file.Valid()
      invariant if file.inode <= MAX_INODE then 0 <= cnt <= 1024 else cnt == -1 && out == []
      invariant cnt >= 0 ==> start <= file.position - cnt && out == content[start..file.position - cnt]
      invariant cnt >= 0 ==> buf[..cnt] == content[file.position - cnt..file.position]
      invariant cnt == 0 ==> file.position == |content|
      decreases |content| - file.position, cnt
    {
      if cnt == -1 { return 3, out; }
      assert content[start..file.position] ==
             content[start..file.position - cnt] + content[file.position - cnt..file.position];
      out := out + buf[..cnt];
      ReadKeepsPosition(content, file.position, 1024);
      cnt := file.Read(buf, 0, 1024);
    }
    return 0, out;
  }
}
