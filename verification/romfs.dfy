/** The image that tools/mkromfs.py writes for a directory tree. */
module RomImage {
  import opened Numbers

  type byte = x: int | 0 <= x < 256

  datatype Tree = File(name: seq<byte>, data: seq<byte>) | Folder(name: seq<byte>, kids: Forest)
  datatype Forest = Nil | Cons(head: Tree, tail: Forest)

  /** `struct.Struct('I')`. */
  function Pack(n: nat): (bs: seq<byte>)
    requires n < WORD
    ensures |bs| == 4
  {
    [n % 256, n / 256 % 256, n / 65536 % 256, n / 16777216]
  }

  function Unpack(bs: seq<byte>): (n: nat)
    requires |bs| == 4
  {
    var a: int, b: int, c: int, d: int := bs[0], bs[1], bs[2], bs[3];
    a + 256 * b + 65536 * c + 16777216 * d
  }

  lemma UnpackPack(n: nat)
    requires n < WORD
    ensures Unpack(Pack(n)) == n
  {
    Bytewise(n);
    Bytewise(n / 256);
    Bytewise(n / 256 / 256);
    Shifts(n);
  }

  lemma Bytewise(n: nat)
    ensures n == n % 256 + 256 * (n / 256)
  {
  }

  lemma Shifts(n: nat)
    ensures n / 65536 == n / 256 / 256 && n / 16777216 == n / 256 / 256 / 256
  {
  }

  function Zeros(n: nat): (bs: seq<byte>)
    ensures |bs| == n && forall i :: 0 <= i < n ==> bs[i] == 0
  {
    seq(n, i => 0)
  }

  /** `bin_name`: at least one NUL, up to a multiple of 4. */
  function PadName(name: seq<byte>): (bs: seq<byte>)
    ensures |bs| % 4 == 0 && |bs| > |name|
  {
    name + Zeros(4 - |name| % 4)
  }

  function PadData(data: seq<byte>): (bs: seq<byte>)
    ensures |bs| % 4 == 0 && |bs| >= |data|
  {
    if |data| % 4 != 0 then data + Zeros(4 - |data| % 4) else data
  }

  function Count(ks: Forest): (n: nat) {
    if ks.Nil? then 0 else 1 + Count(ks.tail)
  }

  function EntrySize(t: Tree): (n: nat) {
    match t
    case File(_, data) => |data|
    case Folder(_, kids) => Count(kids)
  }

  function Tag(t: Tree): (n: nat) {
    if t.File? then 0 else 1
  }

  /** The size of a table entry. */
  const ENTRY: nat := 16

  /** `bin_data`: the table of a folder and then the names and data of its children, depth first. */
  function Bytes(t: Tree, base: nat): (bs: seq<byte>)
    decreases t, 1
  {
    match t
    case File(_, data) => data
    case Folder(_, kids) => var v := base + ENTRY * Count(kids); Table(kids, v) + Payload(kids, v)
  }

  function DataAddr(t: Tree, v: nat): (a: nat) {
    v + |PadName(t.name)|
  }

  function NextAddr(t: Tree, v: nat): (a: nat)
    decreases t, 2
  {
    DataAddr(t, v) + |PadData(Bytes(t, DataAddr(t, v)))|
  }

  /** `struct.pack` of one number, which fails if the number does not fit (see EntryPacks). */
  function Field(n: nat): (bs: seq<byte>)
    ensures |bs| == 4
  {
    Pack(n % WORD)
  }

  function Entry(t: Tree, v: nat): (bs: seq<byte>)
    ensures |bs| == ENTRY
  {
    Field(Tag(t)) + Field(v) + Field(DataAddr(t, v)) + Field(EntrySize(t))
  }

  function Table(ks: Forest, v: nat): (bs: seq<byte>)
    decreases ks, 0
  {
    if ks.Nil? then [] else Entry(ks.head, v) + Table(ks.tail, NextAddr(ks.head, v))
  }

  function Payload(ks: Forest, v: nat): (bs: seq<byte>)
    decreases ks, 0
  {
    if ks.Nil? then []
    else PadName(ks.head.name) + PadData(Bytes(ks.head, DataAddr(ks.head, v))) + Payload(ks.tail, NextAddr(ks.head, v))
  }

  /** The fields of an entry fit. */
  predicate EntryPacks(t: Tree, v: nat) {
    DataAddr(t, v) < WORD && EntrySize(t) < WORD
  }

  /** `struct.pack` does not fail in `bin_data`. */
  predicate Packs(t: Tree, base: nat)
    decreases t, 1
  {
    t.Folder? ==> AllPack(t.kids, base + ENTRY * Count(t.kids))
  }

  predicate AllPack(ks: Forest, v: nat)
    decreases ks, 0
  {
    ks.Cons? ==>
      EntryPacks(ks.head, v) && Packs(ks.head, DataAddr(ks.head, v)) && AllPack(ks.tail, NextAddr(ks.head, v))
  }

  /** `get_bin_data`: an entry for the root, its name, and the root folder. */
  function Image(root: Tree, base: nat): (bs: seq<byte>)
    requires root.Folder?
  {
    var t := Folder([47], root.kids);
    Entry(t, base + ENTRY) + PadName([47]) + Bytes(t, DataAddr(t, base + ENTRY))
  }

  predicate ImagePacks(root: Tree, base: nat)
    requires root.Folder?
  {
    var t := Folder([47], root.kids);
    EntryPacks(t, base + ENTRY) && Packs(t, DataAddr(t, base + ENTRY))
  }

  /** Nothing fails in an image that ends below 2^32. */
  lemma SmallPacks(root: Tree, base: nat)
    requires root.Folder? && base + |Image(root, base)| < WORD
    ensures ImagePacks(root, base)
  {
    var t := Folder([47], root.kids);
    TreeSmallPacks(t, DataAddr(t, base + ENTRY));
  }

  lemma {:induction false} TreeSmallPacks(t: Tree, base: nat)
    requires base + |Bytes(t, base)| < WORD
    ensures Packs(t, base) && EntrySize(t) < WORD
    decreases t, 1
  {
    if t.File? {
    } else {
      var v := base + ENTRY * Count(t.kids);
      TableLength(t.kids, v);
      ForestSmallPacks(t.kids, v);
    }
  }

  lemma {:induction false} ForestSmallPacks(ks: Forest, v: nat)
    requires v + |Payload(ks, v)| < WORD
    ensures AllPack(ks, v)
    decreases ks, 0
  {
    hide PadName, Bytes;
    if ks.Nil? {
    } else {
      TreeSmallPacks(ks.head, DataAddr(ks.head, v));
      ForestSmallPacks(ks.tail, NextAddr(ks.head, v));
    }
  }

  lemma {:induction false} TableLength(ks: Forest, v: nat)
    ensures |Table(ks, v)| == ENTRY * Count(ks)
  {
    if ks.Nil? {
    } else {
      TableLength(ks.tail, NextAddr(ks.head, v));
    }
  }
}

/** Reading an image by following its fields. */
module RomReader {
  import opened RomImage
  import opened Options
  import opened Numbers

  /** The bytes that are found from address `base` on. */
  datatype Memory = Memory(base: nat, bytes: seq<byte>) {
    predicate Has(a: int, n: int) {
      base <= a && 0 <= n && a + n <= base + |bytes|
    }

    function At(a: nat, n: nat): (bs: seq<byte>)
      requires Has(a, n)
      ensures |bs| == n
    {
      bytes[a - base..a - base + n]
    }
  }

  /** The bytes up to the first NUL. */
  function ReadName(m: Memory, a: nat): (r: Option<seq<byte>>)
    decreases m.base + |m.bytes| - a
  {
    if !m.Has(a, 1) then None
    else if m.At(a, 1)[0] == 0 then Some([])
    else
      var rest := ReadName(m, a + 1);
      if rest.None? then None else Some([m.At(a, 1)[0]] + rest.value)
  }

  /** The tree below the entry at `e`, unless it is deeper than `depth` or malformed. */
  function Read(m: Memory, e: nat, depth: nat): (r: Option<Tree>)
    decreases depth, 1, 0
  {
    if depth == 0 || !m.Has(e, ENTRY) then None
    else
      var tag, name := Unpack(m.At(e, 4)), ReadName(m, Unpack(m.At(e + 4, 4)));
      var data, size := Unpack(m.At(e + 8, 4)), Unpack(m.At(e + 12, 4));
      if name.None? then None
      else if tag == 0 then
        if m.Has(data, size) then Some(File(name.value, m.At(data, size))) else None
      else if tag == 1 then
        var kids := ReadAll(m, data, size, depth - 1);
        if kids.None? then None else Some(Folder(name.value, kids.value))
      else None
  }

  function ReadAll(m: Memory, e: nat, n: nat, depth: nat): (r: Option<Forest>)
    decreases depth, 2, n
  {
    if n == 0 then Some(Nil)
    else
      var head, tail := Read(m, e, depth), ReadAll(m, e + ENTRY, n - 1, depth);
      if head.None? || tail.None? then None else Some(Cons(head.value, tail.value))
  }

  ghost predicate Holds(m: Memory, a: nat, bs: seq<byte>) {
    m.Has(a, |bs|) && m.At(a, |bs|) == bs
  }

  lemma HoldsSplit(m: Memory, a: nat, x: seq<byte>, y: seq<byte>)
    requires Holds(m, a, x + y)
    ensures Holds(m, a, x) && Holds(m, a + |x|, y)
  {
    var w := m.At(a, |x + y|);
    assert w == x + y;
    assert w[..|x|] == x && w[|x|..] == y;
    assert m.Has(a, |x|) && m.At(a, |x|) == w[..|x|];
    assert m.Has(a + |x|, |y|) && m.At(a + |x|, |y|) == w[|x|..];
  }

  ghost predicate NulFree(name: seq<byte>) {
    forall i :: 0 <= i < |name| ==> name[i] != 0
  }

  ghost predicate Named(t: Tree) {
    NulFree(t.name) && (t.Folder? ==> AllNamed(t.kids))
  }

  ghost predicate AllNamed(ks: Forest) {
    ks.Cons? ==> Named(ks.head) && AllNamed(ks.tail)
  }

  lemma {:induction false} NameBack(m: Memory, a: nat, name: seq<byte>, k: nat)
    requires NulFree(name) && k > 0 && Holds(m, a, name + Zeros(k))
    ensures ReadName(m, a) == Some(name)
    decreases |name|
  {
    if name == [] {
      assert m.At(a, 1)[0] == m.At(a, k)[0];
    } else {
      assert name + Zeros(k) == [name[0]] + (name[1..] + Zeros(k));
      HoldsSplit(m, a, [name[0]], name[1..] + Zeros(k));
      NameBack(m, a + 1, name[1..], k);
      assert [name[0]] + name[1..] == name;
    }
  }

  function Height(t: Tree): (h: nat) {
    if t.File? then 1 else 1 + HeightAll(t.kids)
  }

  function HeightAll(ks: Forest): (h: nat) {
    if ks.Nil? then 0
    else
      var a, b := Height(ks.head), HeightAll(ks.tail);
      if a < b then b else a
  }

  /** The fields of an entry are read back. */
  lemma EntryBack(m: Memory, e: nat, t: Tree, v: nat)
    requires Holds(m, e, Entry(t, v)) && DataAddr(t, v) < WORD && EntrySize(t) < WORD
    ensures m.Has(e, ENTRY)
    ensures Unpack(m.At(e, 4)) == Tag(t) && Unpack(m.At(e + 4, 4)) == v
    ensures Unpack(m.At(e + 8, 4)) == DataAddr(t, v) && Unpack(m.At(e + 12, 4)) == EntrySize(t)
  {
    hide Pack, Unpack, PadName;
    var a, b, c, d := Field(Tag(t)), Field(v), Field(DataAddr(t, v)), Field(EntrySize(t));
    HoldsSplit(m, e, a + b + c, d);
    HoldsSplit(m, e, a + b, c);
    HoldsSplit(m, e, a, b);
    UnpackPack(Tag(t));
    UnpackPack(v);
    UnpackPack(DataAddr(t, v));
    UnpackPack(EntrySize(t));
  }

  /** An entry whose name and data are in place is read by its tag. */
  lemma ReadEntry(m: Memory, e: nat, t: Tree, v: nat, depth: nat)
    requires EntryPacks(t, v) && NulFree(t.name) && depth > 0
    requires Holds(m, e, Entry(t, v)) && Holds(m, v, PadName(t.name))
    ensures Read(m, e, depth) ==
              var a := DataAddr(t, v);
              if t.File? then if m.Has(a, |t.data|) then Some(File(t.name, m.At(a, |t.data|))) else None
              else
                var kids := ReadAll(m, a, Count(t.kids), depth - 1);
                if kids.None? then None else Some(Folder(t.name, kids.value))
  {
    NameBack(m, v, t.name, 4 - |t.name| % 4);
    EntryBack(m, e, t, v);
    hide Entry, Unpack, DataAddr, ReadName, Holds, ReadAll;
  }

  lemma {:induction false} TreeBack(m: Memory, e: nat, t: Tree, v: nat, depth: nat)
    requires EntryPacks(t, v) && Packs(t, DataAddr(t, v)) && Named(t) && depth >= Height(t)
    requires Holds(m, e, Entry(t, v)) && Holds(m, v, PadName(t.name))
    requires Holds(m, DataAddr(t, v), Bytes(t, DataAddr(t, v)))
    ensures Read(m, e, depth) == Some(t)
    decreases t, 1
  {
    hide Entry, DataAddr, PadName, Read, EntryPacks, NulFree;
    ReadEntry(m, e, t, v, depth);
    match t
    case File(_, data) =>
    case Folder(_, kids) =>
      var a := DataAddr(t, v);
      var w := a + ENTRY * Count(kids);
      assert Holds(m, a, Table(kids, w) + Payload(kids, w));
      hide Bytes, Holds;
      FolderHolds(m, a, kids, w);
      ForestBack(m, a, kids, w, depth - 1);
  }

  lemma FolderHolds(m: Memory, a: nat, kids: Forest, w: nat)
    requires w == a + ENTRY * Count(kids) && Holds(m, a, Table(kids, w) + Payload(kids, w))
    ensures Holds(m, a, Table(kids, w)) && Holds(m, w, Payload(kids, w))
  {
    TableLength(kids, w);
    HoldsSplit(m, a, Table(kids, w), Payload(kids, w));
  }

  lemma {:induction false} ForestBack(m: Memory, e: nat, ks: Forest, v: nat, depth: nat)
    requires AllPack(ks, v) && AllNamed(ks) && depth >= HeightAll(ks)
    requires Holds(m, e, Table(ks, v)) && Holds(m, v, Payload(ks, v))
    ensures ReadAll(m, e, Count(ks), depth) == Some(ks)
    decreases ks, 0
  {
    hide Table, Payload, Bytes, PadName, Entry, Read, Holds, NextAddr, DataAddr, Height, Named, Packs, EntryPacks;
    if ks.Nil? {
    } else {
      var t, next := ks.head, NextAddr(ks.head, v);
      FirstHolds(m, e, ks, v);
      TreeBack(m, e, t, v, depth);
      ForestBack(m, e + ENTRY, ks.tail, next, depth);
    }
  }

  lemma FirstHolds(m: Memory, e: nat, ks: Forest, v: nat)
    requires ks.Cons? && Holds(m, e, Table(ks, v)) && Holds(m, v, Payload(ks, v))
    ensures var t, next := ks.head, NextAddr(ks.head, v);
      && Holds(m, e, Entry(t, v)) && Holds(m, e + ENTRY, Table(ks.tail, next))
      && Holds(m, v, PadName(t.name)) && Holds(m, DataAddr(t, v), Bytes(t, DataAddr(t, v)))
      && Holds(m, next, Payload(ks.tail, next))
  {
    hide Bytes, PadName, PadData, Entry, Holds;
    var t, next := ks.head, NextAddr(ks.head, v);
    var name, data, rest := PadName(t.name), Bytes(t, DataAddr(t, v)), Payload(ks.tail, next);
    HoldsSplit(m, e, Entry(t, v), Table(ks.tail, next));
    HoldsSplit(m, v, name + PadData(data), rest);
    HoldsSplit(m, v, name, PadData(data));
    PaddedHolds(m, v + |name|, data);
  }

  lemma PaddedHolds(m: Memory, a: nat, data: seq<byte>)
    requires Holds(m, a, PadData(data))
    ensures Holds(m, a, data)
  {
    if |data| % 4 != 0 {
      HoldsSplit(m, a, data, Zeros(4 - |data| % 4));
    }
  }

  /** Following the fields from the base gives the tree back, under the root's name. */
  lemma ImageBack(root: Tree, base: nat, depth: nat)
    requires root.Folder? && AllNamed(root.kids) && ImagePacks(root, base)
    requires depth > HeightAll(root.kids)
    ensures Read(Memory(base, Image(root, base)), base, depth) == Some(Folder([47], root.kids))
  {
    hide Entry, Bytes;
    var t, m := Folder([47], root.kids), Memory(base, Image(root, base));
    var entry, name, data := Entry(t, base + ENTRY), PadName([47]), Bytes(t, DataAddr(t, base + ENTRY));
    assert m.bytes[0..|m.bytes|] == entry + name + data;
    assert Holds(m, base, entry + name + data);
    HoldsSplit(m, base, entry + name, data);
    HoldsSplit(m, base, entry, name);
    TreeBack(m, base, t, base + ENTRY, depth);
  }

  /** Names and tables lie at multiples of 4. */
  ghost predicate Aligned(t: Tree, v: nat)
    decreases t, 1
  {
    && v % 4 == 0 && DataAddr(t, v) % 4 == 0
    && (t.Folder? ==> AllAligned(t.kids, DataAddr(t, v) + ENTRY * Count(t.kids)))
  }

  ghost predicate AllAligned(ks: Forest, v: nat)
    decreases ks, 0
  {
    ks.Cons? ==> Aligned(ks.head, v) && AllAligned(ks.tail, NextAddr(ks.head, v))
  }

  lemma {:induction false} TreeAligned(t: Tree, v: nat)
    requires v % 4 == 0
    ensures Aligned(t, v)
    decreases t, 1
  {
    hide PadName;
    if t.File? {
    } else {
      ForestAligned(t.kids, DataAddr(t, v) + ENTRY * Count(t.kids));
    }
  }

  lemma {:induction false} ForestAligned(ks: Forest, v: nat)
    requires v % 4 == 0
    ensures AllAligned(ks, v)
    decreases ks, 0
  {
    hide PadName, PadData;
    if ks.Nil? {
    } else {
      TreeAligned(ks.head, v);
      ForestAligned(ks.tail, NextAddr(ks.head, v));
    }
  }
}

/** The writer at work. */
module RomWriter {
  import opened RomImage
  import opened Numbers
  import opened Options

  /** `Folder.bin_data` with its running address, and `File.bin_data`; None if packing fails. */
  method BinData(t: Tree, base: nat) returns (bs: Option<seq<byte>>)
    ensures bs == if Packs(t, base) then Some(Bytes(t, base)) else None
    decreases t, 4
  {
    match t
    case File(_, data) => bs := Some(data);
    case Folder(_, kids) => bs := FolderData(kids, base);
  }

  /** One turn of the loop in `Folder.bin_data`: an entry, a name and data, and the next address. */
  method ChildData(c: Tree, v: nat) returns (r: Option<(seq<byte>, seq<byte>, nat)>)
    ensures r == if EntryPacks(c, v) && Packs(c, DataAddr(c, v)) then Some((Entry(c, v), Padded(c, v), NextAddr(c, v)))
                 else None
    decreases c, 5
  {
    hide PadName, PadData, Field, Bytes, Packs;
    var name := PadName(c.name);
    var dataAddr := v + |name|;
    var data := BinData(c, dataAddr);
    if data.None? || dataAddr >= WORD || EntrySize(c) >= WORD {
      return None;
    }
    var padded := PadData(data.value);
    var entry := Field(Tag(c)) + Field(v) + Field(dataAddr) + Field(EntrySize(c));
    return Some((entry, name + padded, dataAddr + |padded|));
  }

  /** The loop of `Folder.bin_data`. */
  method FolderData(kids: Forest, base: nat) returns (bs: Option<seq<byte>>)
    ensures var v := base + ENTRY * Count(kids);
            bs == if AllPack(kids, v) then Some(Table(kids, v) + Payload(kids, v)) else None
    decreases kids, 3
  {
    var vLen: nat := base + ENTRY * Count(kids);
    var table, payload, rest := [], [], kids;
    ghost var start := vLen;
    hide Padded, Entry, EntryPacks, Packs, NextAddr;
    while rest.Cons?
      invariant Written(kids, start, table, payload, rest, vLen)
      invariant AllPack(kids, start) <==> AllPack(rest, vLen)
      invariant rest == kids || rest < kids
      decreases rest
    {
      hide Written;
      var c := rest.head;
      WriteStep(kids, start, table, payload, rest, vLen);
      var r := ChildData(c, vLen);
      if r.None? {
        return None;
      }
      table, payload, vLen := table + r.value.0, payload + r.value.1, r.value.2;
      rest := rest.tail;
    }
    WriteEnd(kids, start, table, payload, vLen);
    bs := Some(table + payload);
  }

  function Padded(c: Tree, v: nat): (bs: seq<byte>) {
    PadName(c.name) + PadData(Bytes(c, DataAddr(c, v)))
  }

  /** The table and the payload so far, and what is still to come. */
  ghost predicate Written(kids: Forest, start: nat, table: seq<byte>, payload: seq<byte>, rest: Forest, v: nat) {
    Table(kids, start) == table + Table(rest, v) && Payload(kids, start) == payload + Payload(rest, v)
  }

  lemma WriteStep(kids: Forest, start: nat, table: seq<byte>, payload: seq<byte>, rest: Forest, v: nat)
    requires Written(kids, start, table, payload, rest, v) && rest.Cons?
    ensures var c := rest.head;
      Written(kids, start, table + Entry(c, v), payload + Padded(c, v), rest.tail, NextAddr(c, v))
  {
    hide PadName, PadData, Bytes, Entry;
    var c := rest.head;
    var e, p, next := Entry(c, v), Padded(c, v), NextAddr(c, v);
    assert table + (e + Table(rest.tail, next)) == table + e + Table(rest.tail, next);
    assert payload + (p + Payload(rest.tail, next)) == payload + p + Payload(rest.tail, next);
  }

  lemma WriteEnd(kids: Forest, start: nat, table: seq<byte>, payload: seq<byte>, v: nat)
    requires Written(kids, start, table, payload, Nil, v)
    ensures table == Table(kids, start) && payload == Payload(kids, start)
  {
  }

  /** `get_bin_data`; None if packing fails. */
  method GetBinData(tree: Tree, base: nat) returns (bs: Option<seq<byte>>)
    requires tree.Folder?
    ensures bs == if ImagePacks(tree, base) then Some(Image(tree, base)) else None
  {
    var root := Folder([47], tree.kids);
    var name: seq<byte> := [47, 0, 0, 0];
    assert name == PadName([47]);
    var vLen := base + ENTRY;
    if vLen + |name| >= WORD || EntrySize(root) >= WORD {
      return None;
    }
    var entry := Entry(root, vLen);
    var data := BinData(root, vLen + |name|);
    if data.None? {
      return None;
    }
    bs := Some(entry + name + data.value);
  }
}
