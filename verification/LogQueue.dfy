/**
 The queue of records in front of a module and its file on disk (`src/common/logqueue.c`).

 The file is a value: `None` when there is none, otherwise its bytes.
 */
module LogQueue {
  import opened Bytes
  import opened Codec
  import opened Options
  import opened DList

  type File = Option<seq<byte>>

  datatype LoadError = ShortRead | Undecodable(error: DecodeError) | LengthMismatch

  /** The records read until the end of the data or the first error. */
  datatype Load = Load(records: seq<Record>, error: Option<LoadError>)

  predicate Writable(r: Record) { ValidRecord(r) && RecordSize(r) < TWO32 }

  predicate AllWritable(rs: seq<Record>) {
    forall i :: 0 <= i < |rs| ==> Writable(rs[i])
  }

  /** Written and read back unchanged. */
  predicate Storable(r: Record, limit: nat) {
    && Writable(r)
    && forall i :: 0 <= i < |r.fields| ==> Restorable(r.fields[i].value, limit)
  }

  predicate AllStorable(rs: seq<Record>, limit: nat) {
    forall i :: 0 <= i < |rs| ==> Storable(rs[i], limit)
  }

  function Entry(r: Record): (b: seq<byte>)
    requires ValidRecord(r)
    ensures |b| == 4 + RecordSize(r)
  {
    Little(RecordSize(r), 4) + EncodeRecord(r)
  }

  function FileBytes(rs: seq<Record>): (b: seq<byte>)
    requires AllWritable(rs)
    decreases |rs|
  {
    if rs == [] then [] else Entry(rs[0]) + FileBytes(rs[1..])
  }

  datatype One = End | Bad(error: LoadError) | Good(record: Record, rest: seq<byte>)

  /** The first of the size-prefixed records. */
  function LoadOne(b: seq<byte>, limit: nat): (r: One)
    ensures r.Good? ==> |r.rest| < |b|
  {
    if b == [] then End
    else if |b| < 4 then Bad(ShortRead)
    else
      var n := Value(b[..4]);
      if |b| < 4 + n then Bad(ShortRead)
      else
        match DecodeRecord(b[4..4 + n], limit)
        case Err(e) => Bad(Undecodable(e))
        case Ok(x) => if x.1 != n then Bad(LengthMismatch) else Good(x.0, b[4 + n..])
  }

  function LoadAll(b: seq<byte>, limit: nat): (r: Load)
    decreases |b|
  {
    match LoadOne(b, limit)
    case End => Load([], None)
    case Bad(e) => Load([], Some(e))
    case Good(x, rest) => var more := LoadAll(rest, limit); Load([x] + more.records, more.error)
  }

  lemma LoadEntry(r: Record, rest: seq<byte>, limit: nat)
    requires Storable(r, limit)
    ensures var tail := LoadAll(rest, limit);
            LoadAll(Entry(r) + rest, limit) == Load([r] + tail.records, tail.error)
  {
    hide DecodeRecord, EncodeRecord, RecordSize, Little, Restorable;
    var b := Entry(r) + rest;
    var n := RecordSize(r);
    Powers();
    ValueOfLittle(n, 4);
    assert b[..4] == Little(n, 4);
    assert b[4..4 + n] == EncodeRecord(r) + [];
    assert b[4 + n..] == rest;
    RecordRoundTrip(r, [], limit);
  }

  lemma LoadNothing(limit: nat)
    ensures LoadAll([], limit) == Load([], None)
  {
  }

  lemma StorableIsWritable(rs: seq<Record>, limit: nat)
    requires AllStorable(rs, limit)
    ensures AllWritable(rs)
  {
    hide ValidRecord, RecordSize, Restorable;
    forall i | 0 <= i < |rs|
      ensures Writable(rs[i])
    {
      assert Storable(rs[i], limit);
    }
  }

  /** A saved file loads completely, in the order it was saved. */
  lemma {:induction false} FileRoundTrip(rs: seq<Record>, limit: nat)
    requires AllStorable(rs, limit)
    ensures AllWritable(rs)
    ensures LoadAll(FileBytes(rs), limit) == Load(rs, None)
    decreases |rs|
  {
    hide Storable, Entry, Writable, DecodeRecord, LoadAll;
    StorableIsWritable(rs, limit);
    if rs == [] {
      LoadNothing(limit);
    } else {
      FileRoundTrip(rs[1..], limit);
      LoadEntry(rs[0], FileBytes(rs[1..]), limit);
      assert [rs[0]] + rs[1..] == rs;
    }
  }

  lemma CutEntry(r: Record, p: seq<byte>, limit: nat)
    requires Storable(r, limit) && p < Entry(r) && p != []
    ensures LoadAll(p, limit) == Load([], Some(ShortRead))
  {
    hide DecodeRecord, EncodeRecord, RecordSize, Little, Value, ValidRecord;
    if |p| >= 4 {
      Powers();
      ValueOfLittle(RecordSize(r), 4);
      assert p[..4] == Entry(r)[..4] == Little(RecordSize(r), 4);
    }
  }

  /** Bytes of the first `k` records of a file. */
  function SizeOf(rs: seq<Record>, k: nat): (n: nat)
    requires k <= |rs|
    decreases k
  {
    if k == 0 then 0 else 4 + RecordSize(rs[0]) + SizeOf(rs[1..], k - 1)
  }

  /** A file that was cut short gives the records it still holds completely, in order, and an error
      unless it ends with one of them. */
  lemma {:induction false} CutFile(rs: seq<Record>, p: seq<byte>, limit: nat) returns (k: nat)
    requires AllStorable(rs, limit) && AllWritable(rs) && p <= FileBytes(rs)
    ensures k <= |rs| && SizeOf(rs, k) <= |p| && (k < |rs| ==> |p| < SizeOf(rs, k + 1))
    ensures LoadAll(p, limit) == Load(rs[..k], if |p| == SizeOf(rs, k) then None else Some(ShortRead))
    decreases |rs|
  {
    hide Storable, Entry, Writable, LoadAll, RecordSize;
    if rs == [] || p == [] {
      k := 0;
      LoadNothing(limit);
      assert rs[..0] == [] && p == [];
    } else {
      assert Storable(rs[0], limit) && Writable(rs[0]);
      EntrySize(rs[0]);
      var e := Entry(rs[0]);
      if |p| < |e| {
        k := 0;
        assert p == FileBytes(rs)[..|p|] == e[..|p|];
        CutEntry(rs[0], p, limit);
      } else {
        var rest := p[|e|..];
        assert FileBytes(rs)[|e|..] == FileBytes(rs[1..]) && rest == FileBytes(rs)[|e|..][..|rest|];
        assert p[..|e|] == FileBytes(rs)[..|e|] == e && p == e + rest;
        var j := CutFile(rs[1..], rest, limit);
        k := j + 1;
        LoadEntry(rs[0], rest, limit);
        assert [rs[0]] + rs[1..][..j] == rs[..k];
      }
    }
  }

  lemma EntrySize(r: Record)
    requires Writable(r)
    ensures ValidRecord(r) && |Entry(r)| == 4 + RecordSize(r)
  {
  }

  /** The file after saving a queue; an empty queue leaves an older file alone. */
  function Save(file: File, rs: seq<Record>): (file': File)
    requires AllWritable(rs)
  {
    if rs == [] then file else Some(FileBytes(rs))
  }

  function Restore(file: File, limit: nat): (r: Load) {
    if file == None then Load([], None) else LoadAll(file.value, limit)
  }

  /** Saving over what an earlier run saved, and loading: the records come back complete and in
      order, and the older ones only if there was nothing newer to save. */
  lemma RestoreAfterSaves(before: seq<Record>, now: seq<Record>, limit: nat)
    requires AllStorable(before, limit) && AllStorable(now, limit)
    ensures AllWritable(before) && AllWritable(now)
    ensures Restore(Save(Save(None, before), now), limit)
         == Load(if now == [] then before else now, None)
  {
    hide FileBytes, LoadAll;
    FileRoundTrip(before, limit);
    FileRoundTrip(now, limit);
  }

  lemma NextEntry(items: seq<Record>, i: nat, bytes: seq<byte>)
    requires AllWritable(items) && i < |items|
    ensures AllWritable(items[i..]) && AllWritable(items[i + 1..])
    ensures bytes + FileBytes(items[i..]) == bytes + Entry(items[i]) + FileBytes(items[i + 1..])
  {
    hide Writable, Entry;
    assert items[i..][1..] == items[i + 1..];
  }

  /** The queue of a module, a linked list of records. */
  class Queue {
    const list: List<Record>
    var size: int
    var needpop: bool

    ghost predicate Valid()
      reads this, list, list.nodes
    {
      list.Valid() && size == |list.nodes|
    }

    ghost function Items(): (r: seq<Record>)
      reads list
    {
      list.Contents()
    }

    constructor ()
      ensures Valid() && fresh(list) && Items() == [] && !needpop
    {
      list := new List<Record>();
      size, needpop := 0, false;
    }

    /** Appends, and returns the new size. */
    method Push(r: Record) returns (n: int)
      requires Valid()
      modifies this`size, list, list.nodes
      ensures Valid() && Items() == old(Items()) + [r] && n == |Items()|
      ensures fresh(set x | x in list.nodes && x !in old(list.nodes))
    {
      var node := new Node<Record>(r);
      list.InsertTail(node);
      PayloadsAppend(old(list.nodes), [node]);
      size := size + 1;
      n := size;
    }

    /** The first record, left in place, and how many are behind it. */
    method Peek() returns (n: int, r: Option<Record>)
      requires Valid()
      modifies this`needpop
      ensures Items() == [] ==> r == None && n == 0 && needpop == old(needpop)
      ensures Items() != [] ==> r == Some(Items()[0]) && n == |Items()| - 1 && needpop
    {
      r, n := None, 0;
      if size > 0 {
        r := Some(list.first.value);
        needpop := true;
        n := size - 1;
      }
    }

    /** Removes the record that was peeked at. */
    method Pop(r: Record) returns (n: int)
      requires Valid() && needpop && Items() != [] && Items()[0] == r
      modifies this, list, list.nodes
      ensures Valid() && !needpop && Items() == old(Items())[1..] && n == |Items()|
    {
      list.Remove(list.first, 0);
      size := size - 1;
      needpop := false;
      n := size;
    }

    /** Saves the queue.  An empty queue writes nothing and leaves an older file alone. */
    method ToFile(file: File) returns (file': File, total: nat)
      requires Valid() && AllWritable(Items())
      ensures file' == Save(file, Items())
      ensures total == if Items() == [] then 0 else |FileBytes(Items())|
    {
      hide ValidRecord, Entry, RecordSize;
      if size == 0 {
        return file, 0;
      }
      ghost var items := Items();
      var bytes: seq<byte> := [];
      total := 0;
      ghost var i := 0;
      var node := list.first;
      assert items[0..] == items;
      while node != null
        invariant i <= |items| && node == if i < |items| then list.nodes[i] else null
        invariant bytes + FileBytes(items[i..]) == FileBytes(items)
        invariant total == |bytes|
        decreases |items| - i
      {
        NextEntry(items, i, bytes);
        assert node.value == items[i];
        bytes := bytes + Entry(node.value);
        total := total + |Entry(node.value)|;
        node := node.next;
        i := i + 1;
      }
      assert items[i..] == [] && bytes + [] == bytes;
      file' := Some(bytes);
    }

    /** Loads a saved queue behind what is already queued.  The file is removed only if all of
        it could be read; what was read before an error stays queued. */
    method FromFile(file: File, limit: nat) returns (file': File, error: Option<LoadError>)
      requires Valid()
      modifies this`size, list, list.nodes
      ensures Valid()
      ensures Items() == old(Items()) + Restore(file, limit).records
      ensures error == Restore(file, limit).error
      ensures file' == if error == None then None else file
    {
      hide LoadOne;
      if file == None {
        return None, None;
      }
      var rest := file.value;
      ghost var all := LoadAll(rest, limit);
      ghost var got: seq<Record> := [];
      while true
        invariant Valid() && Items() == old(Items()) + got
        invariant fresh(set x | x in list.nodes && x !in old(list.nodes))
        invariant got + LoadAll(rest, limit).records == all.records
        invariant LoadAll(rest, limit).error == all.error
        decreases |rest|
      {
        match LoadOne(rest, limit) {
          case End => break;
          case Bad(e) => return file, Some(e);
          case Good(r, after) =>
            ghost var tail := LoadAll(after, limit).records;
            assert got + ([r] + tail) == got + [r] + tail;
            var _ := Push(r);
            got := got + [r];
            rest := after;
        }
      }
      return None, None;
    }
  }
}
