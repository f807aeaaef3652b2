/** Directory entries as bytes (fs.h:51-56): a 16-bit inode number and a name of up to DIRSIZ characters, padded with
    NULs. A directory's contents are its entries one after the other. */
module DirBytes {
  import opened FileBlocks
  import opened FileMap
  import opened Links

  const DIRSIZ: nat := 14
  const ENTRY: nat := 16   // sizeof(struct dirent)

  /** A C string: bytes other than NUL. */
  predicate Nameable(name: string) {
    forall i | 0 <= i < |name| :: 0 < name[i] as int < 256
  }

  /** The part of a name that an entry holds. */
  function Short(name: string): string {
    if |name| > DIRSIZ then name[..DIRSIZ] else name
  }

  /** The characters in front of the first NUL. */
  function CString(b: seq<Byte>): string {
    if b == [] || b[0] == 0 then "" else [b[0] as char] + CString(b[1..])
  }

  function Entry(b: seq<Byte>): Dirent
    requires |b| == ENTRY
  {
    var lo: int, hi: int := b[0], b[1];
    Dirent(lo + 0x100 * hi, CString(b[2..]))
  }

  /** strncpy(de.name, name, DIRSIZ) */
  function Padded(name: string): (r: seq<Byte>)
    requires Nameable(name)
    ensures |r| == DIRSIZ
  {
    seq(DIRSIZ, i requires 0 <= i < DIRSIZ => if i < |name| then name[i] as int else 0)
  }

  /** The entry as stored; the inode number is cut to 16 bits. */
  function Encoded(inum: nat, name: string): (r: seq<Byte>)
    requires Nameable(name)
    ensures |r| == ENTRY
  {
    [inum % 0x100, inum / 0x100 % 0x100] + Padded(name)
  }

  /** The first i bytes are the characters of `name`. */
  lemma {:induction false} CStringFrom(b: seq<Byte>, name: string, i: nat)
    requires Nameable(name) && i <= |b| && i <= |name| && forall j | 0 <= j < i :: b[j] == name[j] as int
    ensures CString(b) == name[..i] + CString(b[i..])
  {
    if i == 0 {
      assert b[0..] == b && name[..0] == "";
    } else {
      CStringFrom(b[1..], name[1..], i - 1);
      assert b[1..][i - 1..] == b[i..] && name[..i] == [name[0]] + name[1..][..i - 1];
    }
  }

  lemma {:induction false} CStringPadded(name: string)
    requires Nameable(name)
    ensures CString(Padded(name)) == Short(name)
  {
    var n := |Short(name)|;
    CStringFrom(Padded(name), name, n);
    assert CString(Padded(name)[n..]) == "";
  }

  /** An entry reads back as it was written, with the name cut off at DIRSIZ and the number at 16 bits. */
  lemma {:induction false} EntryEncoded(inum: nat, name: string)
    requires Nameable(name)
    ensures Entry(Encoded(inum, name)) == Dirent(inum % 0x1_0000, Short(name))
  {
    CStringPadded(name);
    assert Encoded(inum, name)[2..] == Padded(name);
    assert inum % 0x1_0000 == inum % 0x100 + 0x100 * (inum / 0x100 % 0x100);
  }

  /** What memset leaves. */
  function Zeros(): (r: seq<Byte>)
    ensures |r| == ENTRY
  {
    seq(ENTRY, _ => 0)
  }

  lemma {:induction false} EntryZero()
    ensures Entry(Zeros()) == Dirent(0, "")
  {
    assert Zeros()[2..][0] == 0;
  }

  function Slice(s: seq<Byte>, k: nat): (r: seq<Byte>)
    requires ENTRY * k + ENTRY <= |s|
    ensures |r| == ENTRY
  {
    s[ENTRY * k..ENTRY * k + ENTRY]
  }

  function Entries(s: seq<Byte>): (es: seq<Dirent>)
    requires |s| % ENTRY == 0
    ensures |es| == |s| / ENTRY
  {
    seq(|s| / ENTRY, k requires 0 <= k < |s| / ENTRY => Entry(Slice(s, k)))
  }

  lemma {:induction false} SlicePatched(s: seq<Byte>, k: nat, b: seq<Byte>, j: nat)
    requires |b| == ENTRY && ENTRY * k <= |s| && |s| % ENTRY == 0 && ENTRY * j + ENTRY <= |Patched(s, ENTRY * k, b)|
    ensures j == k ==> Slice(Patched(s, ENTRY * k, b), j) == b
    ensures j != k ==> ENTRY * j + ENTRY <= |s| && Slice(Patched(s, ENTRY * k, b), j) == Slice(s, j)
  {
    if j < k {
      assert ENTRY * j + ENTRY <= ENTRY * k;
    } else if j > k {
      assert ENTRY * j >= ENTRY * k + ENTRY;
    }
  }

  lemma {:induction false} PatchedSize(s: seq<Byte>, k: nat, b: seq<Byte>)
    requires |b| == ENTRY && ENTRY * k <= |s| && |s| % ENTRY == 0
    ensures |Patched(s, ENTRY * k, b)| == if ENTRY * k == |s| then |s| + ENTRY else |s|
  {
    assert |s| == ENTRY * (|s| / ENTRY);
    if ENTRY * k < |s| {
      assert k < |s| / ENTRY;
    }
  }

  /** Writing 16 bytes at an entry's place replaces that entry, or adds one at the end. */
  lemma {:induction false} EntriesPatched(s: seq<Byte>, k: nat, b: seq<Byte>)
    requires |b| == ENTRY && ENTRY * k <= |s| && |s| % ENTRY == 0
    ensures |Patched(s, ENTRY * k, b)| % ENTRY == 0 && k <= |s| / ENTRY
    ensures Entries(Patched(s, ENTRY * k, b)) == Put(Entries(s), k, Entry(b))
  {
    PatchedSize(s, k, b);
    var s' := Patched(s, ENTRY * k, b);
    hide Patched;
    assert |s| == ENTRY * (|s| / ENTRY);
    forall j: nat | j < |s'| / ENTRY
      ensures Entry(Slice(s', j)) == Put(Entries(s), k, Entry(b))[j]
    {
      assert ENTRY * j + ENTRY <= |s'|;
      SlicePatched(s, k, b, j);
    }
  }

  /** namecmp, that is strncmp(name, field, DIRSIZ) (string.c): 0 exactly when the entry's name is the name's short
      form. */
  method Namecmp(name: string, field: seq<Byte>) returns (r: int)
    requires Nameable(name) && |field| == DIRSIZ
    ensures r == 0 <==> CString(field) == Short(name)
  {
    var i := 0;
    while i < DIRSIZ && i < |name| && name[i] as int == field[i]
      invariant i <= DIRSIZ && i <= |name| && forall j | 0 <= j < i :: field[j] == name[j] as int
    {
      i := i + 1;
    }
    CStringFrom(field, name, i);
    if i == DIRSIZ {
      assert CString(field[i..]) == "" && name[..i] == Short(name);
      return 0;
    }
    var c := if i < |name| then name[i] as int else 0;
    r := c - field[i];
    DifferAt(field, name, i);
  }

  lemma {:induction false} DifferAt(field: seq<Byte>, name: string, i: nat)
    requires Nameable(name) && |field| == DIRSIZ && i < DIRSIZ && i <= |name| && CString(field) == name[..i] + CString(field[i..])
    requires i < |name| ==> name[i] as int != field[i]
    ensures CString(field) == Short(name) <==> i == |name| && field[i] == 0
  {
    if i == |name| {
      assert name[..i] == name == Short(name);
      if field[i] != 0 {
        assert |CString(field[i..])| > 0;
      }
    } else {
      assert Short(name)[i] == name[i];
      assert |CString(field)| > i ==> CString(field)[i] == CString(field[i..])[0];
    }
  }
}
