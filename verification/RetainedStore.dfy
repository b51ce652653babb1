/** The retained store: a fixed table of slots with eviction of the oldest entry, and the file it is
  * persisted to and restored from.
  */
module RetainedStore {
  import opened DirectWire
  import opened EscapedFields
  import opened LastWrite
  import opened TextFiles

  const MAX_KEY_BYTES: nat := 191
  const MAX_STRING_BYTES: nat := 511
  const UNIT_SEPARATOR: byte := 31

  // ---------------------------------------------------------------- fields and entries

  /** The C string in a buffer: what precedes the first NUL. */
  function CString(s: octets): octets
  {
    if s == [] || s[0] == 0 then [] else [s[0]] + CString(s[1..])
  }

  /** What reading back a field of at most max bytes yields. */
  function Stored(s: octets, max: nat): octets
  {
    CString(Prefix(s, max))
  }

  predicate Fits(s: octets, max: nat)
  {
    |s| <= max && 0 !in s
  }

  lemma {:induction false} CStringIs(s: octets)
    ensures CString(s) <= s && 0 !in CString(s)
    ensures CString(s) == s <==> 0 !in s
  {
    if s != [] {
      CStringIs(s[1..]);
      assert s == [s[0]] + s[1..];
    }
  }

  /** A field reads back as written exactly when it fits, and what reads back always fits. */
  lemma StoredExactly(s: octets, max: nat)
    ensures Stored(s, max) == s <==> Fits(s, max)
    ensures Fits(Stored(s, max), max)
  {
    CStringIs(Prefix(s, max));
  }

  datatype Cell = BoolCell(flag: bool) | DoubleCell(raw: raw8) | ArrayCell(packed: octets) | TextCell(text: octets)

  datatype Entry = Entry(key: octets, kind: byte, cell: Cell, seqNo: uint64, timestampUs: uint64)

  datatype Slot = Free | Held(entry: Entry)

  predicate WellFormed(e: Entry)
  {
    && Fits(e.key, MAX_KEY_BYTES)
    && match e.cell
       case BoolCell(_) => e.kind == 1
       case DoubleCell(_) => e.kind == 2
       case ArrayCell(packed) => e.kind == 4 && Fits(packed, MAX_STRING_BYTES)
       case TextCell(text) => e.kind != 1 && e.kind != 2 && e.kind != 4 && Fits(text, MAX_STRING_BYTES)
  }

  // ---------------------------------------------------------------- packed string arrays

  function Pack(items: seq<octets>): octets
  {
    if items == [] then []
    else if |items| == 1 then items[0]
    else items[0] + [UNIT_SEPARATOR] + Pack(items[1..])
  }

  function UnpackFrom(packed: octets, current: octets): seq<octets>
    decreases |packed|
  {
    if packed == [] then [current]
    else if packed[0] == UNIT_SEPARATOR then [current] + UnpackFrom(packed[1..], [])
    else UnpackFrom(packed[1..], current + [packed[0]])
  }

  function Unpack(packed: octets): seq<octets>
  {
    UnpackFrom(packed, [])
  }

  predicate NoSeparator(items: seq<octets>)
  {
    forall i :: 0 <= i < |items| ==> 31 !in items[i]
  }

  lemma {:induction false} UnpackReadsItem(item: octets, rest: octets, current: octets)
    requires UNIT_SEPARATOR !in item
    ensures UnpackFrom(item + rest, current) == UnpackFrom(rest, current + item)
    decreases |item|
  {
    if item == [] {
      assert [] + rest == rest && current + [] == current;
    } else {
      assert (item + rest)[1..] == item[1..] + rest;
      assert current + [item[0]] + item[1..] == current + item;
      UnpackReadsItem(item[1..], rest, current + [item[0]]);
    }
  }

  lemma {:induction false} UnpackUndoesPack(items: seq<octets>)
    requires items != [] && NoSeparator(items)
    ensures Unpack(Pack(items)) == items
    decreases |items|
  {
    var item := items[0];
    if |items| == 1 {
      UnpackReadsItem(item, [], []);
      assert item + [] == item && [] + item == item;
      assert items == [item];
    } else {
      var rest := [UNIT_SEPARATOR] + Pack(items[1..]);
      assert Pack(items) == item + rest;
      UnpackReadsItem(item, rest, []);
      assert [] + item == item && rest[1..] == Pack(items[1..]);
      UnpackUndoesPack(items[1..]);
    }
  }

  lemma {:induction false} PackUndoesUnpack(packed: octets, current: octets)
    requires UNIT_SEPARATOR !in current
    ensures UnpackFrom(packed, current) != [] && NoSeparator(UnpackFrom(packed, current))
    ensures Pack(UnpackFrom(packed, current)) == current + packed
    decreases |packed|
  {
    if packed == [] {
      assert current + [] == current;
    } else if packed[0] == UNIT_SEPARATOR {
      PackUndoesUnpack(packed[1..], []);
      var more := UnpackFrom(packed[1..], []);
      assert ([current] + more)[1..] == more;
      assert Pack(more) == packed[1..];
      assert current + [UNIT_SEPARATOR] + packed[1..] == current + packed;
    } else {
      PackUndoesUnpack(packed[1..], current + [packed[0]]);
      assert current + [packed[0]] + packed[1..] == current + packed;
    }
  }

  /** An array survives the slot exactly when it is nonempty, free of separators, and its packed form fits. */
  lemma ArrayReadsBackExactly(items: seq<octets>)
    ensures Unpack(Stored(Pack(items), MAX_STRING_BYTES)) == items
            <==> items != [] && NoSeparator(items) && Fits(Pack(items), MAX_STRING_BYTES)
  {
    var kept := Stored(Pack(items), MAX_STRING_BYTES);
    StoredExactly(Pack(items), MAX_STRING_BYTES);
    PackUndoesUnpack(kept, []);
    assert [] + kept == kept;
    if items != [] && NoSeparator(items) {
      UnpackUndoesPack(items);
    }
  }

  // ---------------------------------------------------------------- the table

  function EntryFor(u: Update): Entry
  {
    Entry(Stored(u.key, MAX_KEY_BYTES), WireType(u.value), CellFor(u.value), u.seqNo, u.timestampUs)
  }

  function CellFor(v: Value): Cell
  {
    match v
    case BoolValue(flag) => BoolCell(flag)
    case DoubleValue(raw) => DoubleCell(raw)
    case StringValue(text) => TextCell(Stored(text, MAX_STRING_BYTES))
    case StringArrayValue(items) => ArrayCell(Stored(Pack(items), MAX_STRING_BYTES))
  }

  function ReadCell(c: Cell): Value
  {
    match c
    case BoolCell(flag) => BoolValue(flag)
    case DoubleCell(raw) => DoubleValue(raw)
    case TextCell(text) => StringValue(text)
    case ArrayCell(packed) => StringArrayValue(Unpack(packed))
  }

  predicate ValueFits(v: Value)
  {
    match v
    case BoolValue(_) => true
    case DoubleValue(_) => true
    case StringValue(text) => Fits(text, MAX_STRING_BYTES)
    case StringArrayValue(items) => items != [] && NoSeparator(items) && Fits(Pack(items), MAX_STRING_BYTES)
  }

  lemma ValueReadsBackExactly(v: Value)
    ensures ReadCell(CellFor(v)) == v <==> ValueFits(v)
  {
    hide Stored, Pack, UnpackFrom, Unpack;
    match v
    case StringValue(text) => StoredExactly(text, MAX_STRING_BYTES);
    case StringArrayValue(items) => ArrayReadsBackExactly(items);
    case _ =>
  }

  lemma EntryForWellFormed(u: Update)
    ensures WellFormed(EntryFor(u))
  {
    hide Stored, Pack;
    StoredExactly(u.key, MAX_KEY_BYTES);
    match u.value
    case StringValue(text) => StoredExactly(text, MAX_STRING_BYTES);
    case StringArrayValue(items) => StoredExactly(Pack(items), MAX_STRING_BYTES);
    case _ =>
  }

  predicate HoldsKey(slot: Slot, key: octets)
  {
    slot.Held? && slot.entry.key == key
  }

  /** The first slot holding key, or -1. */
  function Holder(slots: seq<Slot>, key: octets): (r: int)
    ensures r == -1 || (0 <= r < |slots| && HoldsKey(slots[r], key))
    ensures forall i :: 0 <= i < |slots| && (i < r || r == -1) ==> !HoldsKey(slots[i], key)
  {
    if slots == [] then -1
    else if HoldsKey(slots[0], key) then 0
    else
      var r := Holder(slots[1..], key);
      if r == -1 then -1 else r + 1
  }

  function FirstFree(slots: seq<Slot>): (r: int)
    ensures r == -1 || (0 <= r < |slots| && slots[r].Free?)
    ensures forall i :: 0 <= i < |slots| && (i < r || r == -1) ==> slots[i].Held?
  {
    if slots == [] then -1
    else if slots[0].Free? then 0
    else
      var r := FirstFree(slots[1..]);
      if r == -1 then -1 else r + 1
  }

  /** The first entry of strictly smallest sequence number among the first n slots; 0 if none is below the maximum. */
  function Oldest(slots: seq<Slot>, n: nat): (r: nat)
    requires n <= |slots|
    ensures r < n || r == 0
    ensures OldestSeq(slots, n) < 0xFFFF_FFFF_FFFF_FFFF ==>
      r < n && slots[r].Held? && slots[r].entry.seqNo == OldestSeq(slots, n)
  {
    if n == 0 then 0
    else if slots[n - 1].Held? && slots[n - 1].entry.seqNo < OldestSeq(slots, n - 1) then n - 1
    else Oldest(slots, n - 1)
  }

  function OldestSeq(slots: seq<Slot>, n: nat): (r: uint64)
    requires n <= |slots|
    ensures forall i :: 0 <= i < n && slots[i].Held? ==> r <= slots[i].entry.seqNo
  {
    if n == 0 then 0xFFFF_FFFF_FFFF_FFFF
    else if slots[n - 1].Held? && slots[n - 1].entry.seqNo < OldestSeq(slots, n - 1) then slots[n - 1].entry.seqNo
    else OldestSeq(slots, n - 1)
  }

  /** The slot a put writes: the key's own, else a free one, else the oldest. */
  function Target(slots: seq<Slot>, key: octets): (r: nat)
    requires slots != []
    ensures r < |slots|
  {
    if Holder(slots, key) >= 0 then Holder(slots, key)
    else if FirstFree(slots) >= 0 then FirstFree(slots)
    else Oldest(slots, |slots|)
  }

  function PutSlots(slots: seq<Slot>, u: Update): seq<Slot>
    requires slots != []
  {
    slots[Target(slots, u.key) := Held(EntryFor(u))]
  }

  predicate Unique(slots: seq<Slot>)
  {
    forall i, j :: 0 <= i < j < |slots| && slots[i].Held? && slots[j].Held? ==> slots[i].entry.key != slots[j].entry.key
  }

  predicate AllWellFormed(slots: seq<Slot>)
  {
    forall i :: 0 <= i < |slots| && slots[i].Held? ==> WellFormed(slots[i].entry)
  }

  function Keys(slots: seq<Slot>): set<octets>
  {
    set i | 0 <= i < |slots| && slots[i].Held? :: slots[i].entry.key
  }

  /** The table as a map. */
  function View(slots: seq<Slot>): map<octets, Entry>
  {
    map k | k in Keys(slots) :: slots[Holder(slots, k)].entry
  }

  lemma ViewAt(slots: seq<Slot>, i: nat)
    requires Unique(slots) && i < |slots| && slots[i].Held?
    ensures slots[i].entry.key in View(slots) && View(slots)[slots[i].entry.key] == slots[i].entry
  {
    assert HoldsKey(slots[i], slots[i].entry.key);
    assert slots[i].entry.key in Keys(slots);
  }

  lemma HeldByKey(slots: seq<Slot>, k: octets)
    ensures k in View(slots) <==> Holder(slots, k) >= 0
  {
    if k in Keys(slots) {
      var i :| 0 <= i < |slots| && slots[i].Held? && slots[i].entry.key == k;
      assert HoldsKey(slots[i], k);
    }
  }

  /** A put keeps keys unique exactly when the key is stored as given, or its clipped form is new or already
    * in the slot written: the search compares with the unclipped key.
    */
  lemma UniqueKeptExactly(slots: seq<Slot>, u: Update)
    requires slots != [] && Unique(slots)
    ensures Unique(PutSlots(slots, u)) <==>
      var h := Holder(slots, Stored(u.key, MAX_KEY_BYTES));
      Fits(u.key, MAX_KEY_BYTES) || h == -1 || h == Target(slots, u.key)
  {
    hide Stored, Oldest;
    StoredExactly(u.key, MAX_KEY_BYTES);
    var t, k := Target(slots, u.key), Stored(u.key, MAX_KEY_BYTES);
    var h := Holder(slots, k);
    var after := PutSlots(slots, u);
    if h != -1 && h != t {
      assert after[h] == slots[h] && after[t].entry.key == k;
    } else {
      forall i, j | 0 <= i < j < |after| && after[i].Held? && after[j].Held?
        ensures after[i].entry.key != after[j].entry.key
      {
        assert i != t ==> after[i] == slots[i] && (HoldsKey(slots[i], k) ==> h == i);
        assert j != t ==> after[j] == slots[j] && (HoldsKey(slots[j], k) ==> h == j);
      }
    }
  }

  /** A key longer than its slot is never found again, so putting it twice stores it twice. */
  lemma LongKeyDuplicates(u: Update)
    requires |u.key| > MAX_KEY_BYTES
    ensures var once := PutSlots([Free, Free], u);
      once == [Held(EntryFor(u)), Free] && PutSlots(once, u) == [Held(EntryFor(u)), Held(EntryFor(u))]
      && !Unique(PutSlots(once, u))
  {
    hide Stored, CellFor, Oldest, OldestSeq;
    StoredExactly(u.key, MAX_KEY_BYTES);
    var none: seq<Slot> := [Free, Free];
    var once := [Held(EntryFor(u)), Free];
    assert Holder(none, u.key) == -1 && FirstFree(none) == 0;
    assert PutSlots(none, u) == once;
    assert !HoldsKey(once[0], u.key) && !HoldsKey(once[1], u.key);
    assert Holder(once, u.key) == -1;
    assert FirstFree(once) == 1;
    var twice := PutSlots(once, u);
    assert twice == [Held(EntryFor(u)), Held(EntryFor(u))];
    assert twice[0].Held? && twice[1].Held? && twice[0].entry.key == twice[1].entry.key;
  }

  /** A put that keeps keys unique refines the bounded map: the entry appears under the stored key, replacing
    * the one of the given key; else taking a free slot; else replacing exactly one entry, of smallest
    * sequence number.
    */
  lemma PutRefines(slots: seq<Slot>, u: Update)
    requires slots != [] && Unique(slots) && Unique(PutSlots(slots, u))
    ensures var k, before, after := Stored(u.key, MAX_KEY_BYTES), View(slots), View(PutSlots(slots, u));
      && (u.key in before ==> after == (before - {u.key})[k := EntryFor(u)])
      && (u.key !in before && FirstFree(slots) >= 0 ==> after == before[k := EntryFor(u)])
      && (u.key !in before && FirstFree(slots) == -1 ==>
           exists victim :: victim in before
             && (forall j :: j in before ==> before[victim].seqNo <= before[j].seqNo)
             && after == (before - {victim})[k := EntryFor(u)])
  {
    hide Stored, Oldest, OldestSeq, View, Unique;
    HeldByKey(slots, u.key);
    var t := Target(slots, u.key);
    ReplacedView(slots, t, EntryFor(u));
    if slots[t].Held? {
      ViewAt(slots, t);
    }
    if u.key !in View(slots) && FirstFree(slots) == -1 {
      OldestIsMinimal(slots);
      assert slots[t].entry.key in View(slots);
    }
  }

  lemma OldestIsMinimal(slots: seq<Slot>)
    requires slots != [] && FirstFree(slots) == -1
    ensures var t := Oldest(slots, |slots|); t < |slots| && slots[t].Held?
    ensures forall k :: k in View(slots) ==> slots[Oldest(slots, |slots|)].entry.seqNo <= View(slots)[k].seqNo
  {
    var t := Oldest(slots, |slots|);
    assert slots[t].Held?;
    forall k | k in View(slots)
      ensures slots[t].entry.seqNo <= View(slots)[k].seqNo
    {
      HeldByKey(slots, k);
      assert OldestSeq(slots, |slots|) <= slots[Holder(slots, k)].entry.seqNo;
    }
  }

  /** Overwriting slot t drops its old key, if any, and shows the new entry. */
  lemma ReplacedView(slots: seq<Slot>, t: nat, e: Entry)
    requires t < |slots| && Unique(slots) && Unique(slots[t := Held(e)])
    ensures View(slots[t := Held(e)]) ==
      (if slots[t].Held? then View(slots) - {slots[t].entry.key} else View(slots))[e.key := e]
  {
    var after := slots[t := Held(e)];
    var expected := (if slots[t].Held? then View(slots) - {slots[t].entry.key} else View(slots))[e.key := e];
    forall k
      ensures k in View(after) <==> k in expected
      ensures k in View(after) ==> View(after)[k] == expected[k]
    {
      ReplacedKey(slots, t, e, k);
    }
  }

  lemma ReplacedKey(slots: seq<Slot>, t: nat, e: Entry, k: octets)
    requires t < |slots| && Unique(slots) && Unique(slots[t := Held(e)])
    ensures var expected := (if slots[t].Held? then View(slots) - {slots[t].entry.key} else View(slots))[e.key := e];
      && (k in View(slots[t := Held(e)]) <==> k in expected)
      && (k in expected ==> View(slots[t := Held(e)])[k] == expected[k])
  {
    hide View;
    var after := slots[t := Held(e)];
    ViewAt(after, t);
    HeldByKey(slots, k);
    HeldByKey(after, k);
    var h, h' := Holder(slots, k), Holder(after, k);
    if k != e.key {
      if h >= 0 {
        ViewAt(slots, h);
        if h != t {
          assert HoldsKey(after[h], k);
          ViewAt(after, h);
        }
      }
      if h' >= 0 {
        assert h' != t && HoldsKey(slots[h'], k);
        ViewAt(slots, h');
        ViewAt(after, h');
      }
      if slots[t].Held? {
        ViewAt(slots, t);
      }
    }
  }

  // ---------------------------------------------------------------- reading

  function GetSlots(slots: seq<Slot>, key: octets, kind: byte): Option<Value>
  {
    if slots == [] then None
    else if slots[0].Held? && slots[0].entry.kind == kind && slots[0].entry.key == key then
      Some(ReadCell(slots[0].entry.cell))
    else GetSlots(slots[1..], key, kind)
  }

  /** A lookup sees the map: the key's entry if it is of the kind asked for. */
  lemma {:induction false} GetSeesView(slots: seq<Slot>, key: octets, kind: byte)
    requires Unique(slots)
    ensures GetSlots(slots, key, kind) ==
      if key in View(slots) && View(slots)[key].kind == kind then Some(ReadCell(View(slots)[key].cell)) else None
  {
    HeldByKey(slots, key);
    if slots != [] {
      var rest := slots[1..];
      GetSeesView(rest, key, kind);
      HeldByKey(rest, key);
      if HoldsKey(slots[0], key) {
        ViewAt(slots, 0);
        assert forall i :: 0 <= i < |rest| ==> !HoldsKey(rest[i], key);
      }
    }
  }

  /** The first slot that holds the key answers the lookup, if its kind is the one asked for. */
  lemma {:induction false} GetFirst(slots: seq<Slot>, key: octets, kind: byte, t: nat)
    requires t < |slots| && HoldsKey(slots[t], key) && slots[t].entry.kind == kind
    requires forall i :: 0 <= i < t ==> !HoldsKey(slots[i], key)
    ensures GetSlots(slots, key, kind) == Some(ReadCell(slots[t].entry.cell))
  {
    if t > 0 {
      GetFirst(slots[1..], key, kind, t - 1);
    }
  }

  lemma {:induction false} GetMissing(slots: seq<Slot>, key: octets, kind: byte)
    requires forall i :: 0 <= i < |slots| ==> !HoldsKey(slots[i], key)
    ensures GetSlots(slots, key, kind) == None
  {
    if slots != [] {
      GetMissing(slots[1..], key, kind);
    }
  }

  /** What was just put reads back under the key it was put with if and only if key and value fit their slot,
    * whatever duplicates earlier puts have left behind.
    */
  lemma GetAfterPut(slots: seq<Slot>, u: Update)
    requires slots != []
    ensures Fits(u.key, MAX_KEY_BYTES) ==>
      (GetSlots(PutSlots(slots, u), u.key, WireType(u.value)) == Some(u.value) <==> ValueFits(u.value))
    ensures AllWellFormed(slots) ==>
      (GetSlots(PutSlots(slots, u), u.key, WireType(u.value)) == Some(u.value)
       <==> Fits(u.key, MAX_KEY_BYTES) && ValueFits(u.value))
  {
    hide Stored, CellFor, ReadCell, GetSlots, ValueFits, Oldest, FirstFree;
    StoredExactly(u.key, MAX_KEY_BYTES);
    var after := PutSlots(slots, u);
    if Fits(u.key, MAX_KEY_BYTES) {
      GetFirst(after, u.key, WireType(u.value), Target(slots, u.key));
      ValueReadsBackExactly(u.value);
    } else if AllWellFormed(slots) {
      GetMissing(after, u.key, WireType(u.value));
    }
  }

  // ---------------------------------------------------------------- every run of puts

  function PutAll(slots: seq<Slot>, us: seq<Update>): seq<Slot>
    requires slots != []
    decreases |us|
  {
    if us == [] then slots else PutAll(PutSlots(slots, us[0]), us[1..])
  }

  predicate AllFit(us: seq<Update>)
  {
    forall i :: 0 <= i < |us| ==> Fits(us[i].key, MAX_KEY_BYTES)
  }

  /** Every run keeps the size and what fits its slots; keys stay unique if all keys put fit. */
  lemma {:induction false} RunKeepsTable(slots: seq<Slot>, us: seq<Update>)
    requires slots != [] && AllWellFormed(slots)
    ensures |PutAll(slots, us)| == |slots| && AllWellFormed(PutAll(slots, us))
    ensures Unique(slots) && AllFit(us) ==> Unique(PutAll(slots, us))
    decreases |us|
  {
    hide Unique, WellFormed, Target, EntryFor;
    if us != [] {
      if Unique(slots) && AllFit(us) {
        UniqueKeptExactly(slots, us[0]);
      }
      EntryForWellFormed(us[0]);
      RunKeepsTable(PutSlots(slots, us[0]), us[1..]);
    }
  }

  // ---------------------------------------------------------------- what the table holds, by the updates put

  /** The entry says what the update did: its numbers, and its value under the code of its type, texts as far as
    * they fit.
    */
  predicate Records(e: Entry, u: Update)
  {
    && e.key == Stored(u.key, 191) && e.seqNo == u.seqNo && e.timestampUs == u.timestampUs
    && match u.value
       case BoolValue(flag) => e.kind == 1 && e.cell == BoolCell(flag)
       case DoubleValue(raw) => e.kind == 2 && e.cell == DoubleCell(raw)
       case StringValue(text) => e.kind == 3 && e.cell == TextCell(Stored(text, 511))
       case StringArrayValue(items) => e.kind == 4 && e.cell == ArrayCell(Stored(Pack(items), 511))
  }

  lemma PutRecords(slots: seq<Slot>, u: Update)
    requires slots != []
    ensures PutSlots(slots, u)[Target(slots, u.key)].Held?
    ensures Records(PutSlots(slots, u)[Target(slots, u.key)].entry, u)
  {
    hide Stored, Pack, Target;
  }

  function Whole(u: Update): Update { u }

  /** The last update put for each key. */
  ghost function LastPuts(us: seq<Update>): map<octets, Update>
  {
    Latest(KeyOf, Whole, us)
  }

  lemma {:induction false} PutAllSnoc(slots: seq<Slot>, us: seq<Update>, u: Update)
    requires slots != []
    ensures PutAll(slots, us) != [] && PutAll(slots, us + [u]) == PutSlots(PutAll(slots, us), u)
    decreases |us|
  {
    hide Target, EntryFor;
    if us == [] {
      assert ([] + [u])[1..] == [];
    } else {
      assert (us + [u])[1..] == us[1..] + [u];
      PutAllSnoc(PutSlots(slots, us[0]), us[1..], u);
    }
  }

  function Fresh(size: nat): seq<Slot>
  {
    seq(size, _ => Free)
  }

  ghost predicate HoldsPuts(slots: seq<Slot>, us: seq<Update>)
  {
    && Unique(slots)
    && forall k :: k in View(slots) ==> k in LastPuts(us) && Records(View(slots)[k], LastPuts(us)[k])
  }

  lemma PutHolds(slots: seq<Slot>, us: seq<Update>, u: Update)
    requires slots != [] && HoldsPuts(slots, us) && Fits(u.key, 191)
    ensures HoldsPuts(PutSlots(slots, u), us + [u])
  {
    hide Records, Stored, Unique, View, Target, EntryFor;
    UniqueKeptExactly(slots, u);
    StoredExactly(u.key, 191);
    PutRefines(slots, u);
    EntryRecords(u);
    LatestSnoc(KeyOf, Whole, us, u);
    var before, after := View(slots), View(PutSlots(slots, u));
    assert u.key in after && after[u.key] == EntryFor(u);
    assert forall k :: k in after && k != u.key ==> k in before && after[k] == before[k];
  }

  lemma EntryRecords(u: Update)
    ensures Records(EntryFor(u), u)
  {
    hide Stored, Pack;
  }

  /** After every run of puts into a fresh table each key held shows the last update put for it. */
  lemma {:induction false} HoldsLastPuts(size: nat, us: seq<Update>)
    requires size > 0 && AllFit(us)
    ensures |PutAll(Fresh(size), us)| == size && HoldsPuts(PutAll(Fresh(size), us), us)
    decreases |us|
  {
    hide HoldsPuts, PutSlots, PutAll;
    if us == [] {
      FreshHolds(size);
    } else {
      var front, u := us[..|us| - 1], us[|us| - 1];
      assert us == front + [u];
      HoldsLastPuts(size, front);
      PutAllSnoc(Fresh(size), front, u);
      PutHolds(PutAll(Fresh(size), front), front, u);
      PutKeepsSize(PutAll(Fresh(size), front), u);
    }
  }

  lemma FreshHolds(size: nat)
    requires size > 0
    ensures PutAll(Fresh(size), []) == Fresh(size) && |Fresh(size)| == size && HoldsPuts(Fresh(size), [])
  {
    assert forall k :: k !in View(Fresh(size));
  }

  lemma PutKeepsSize(slots: seq<Slot>, u: Update)
    requires slots != []
    ensures |PutSlots(slots, u)| == |slots|
  {
  }

  lemma {:induction false} HeldCount(slots: seq<Slot>)
    requires Unique(slots)
    ensures |Keys(slots)| == |Entries(slots)| <= |slots|
    ensures FirstFree(slots) >= 0 <==> |Entries(slots)| < |slots|
    decreases |slots|
  {
    if slots != [] {
      HeldCount(slots[1..]);
      HeadKey(slots);
    }
  }

  lemma HeadKey(slots: seq<Slot>)
    requires slots != [] && Unique(slots)
    ensures slots[0].Free? ==> Keys(slots) == Keys(slots[1..])
    ensures slots[0].Held? ==>
      Keys(slots) == {slots[0].entry.key} + Keys(slots[1..]) && slots[0].entry.key !in Keys(slots[1..])
  {
    assert slots == [slots[0]] + slots[1..];
    assert forall i :: 0 <= i < |slots[1..]| ==> slots[1..][i] == slots[i + 1];
    forall k
      ensures k in Keys(slots) <==> (slots[0].Held? && k == slots[0].entry.key) || k in Keys(slots[1..])
    {
      if k in Keys(slots) {
        var i :| 0 <= i < |slots| && slots[i].Held? && slots[i].entry.key == k;
        assert i > 0 ==> slots[1..][i - 1] == slots[i];
      }
      if k in Keys(slots[1..]) {
        var i :| 0 <= i < |slots[1..]| && slots[1..][i].Held? && slots[1..][i].entry.key == k;
        assert slots[i + 1].entry.key == k;
      }
    }
  }

  lemma KeysCounted(slots: seq<Slot>)
    requires Unique(slots)
    ensures View(slots).Keys == Keys(slots)
    ensures |View(slots)| <= |slots| && (FirstFree(slots) == -1 <==> |View(slots)| == |slots|)
  {
    HeldCount(slots);
    assert View(slots).Keys == Keys(slots);
    assert |View(slots)| == |View(slots).Keys|;
  }

  /** A put into a table changes no other entry, and gives up a key only for a new one in a full table: then one
    * whose last put carried the smallest number among the keys held.
    */
  ghost predicate EvictsSmallest(before: map<octets, Entry>, after: map<octets, Entry>, size: nat, us: seq<Update>,
                                 u: Update)
  {
    && |before| <= size && u.key in after && Records(after[u.key], u)
    && (forall k :: k in after && k != u.key ==> k in before && after[k] == before[k])
    && (u.key in before || |before| < size ==> after.Keys == before.Keys + {u.key})
    && (u.key !in before && |before| == size ==>
         exists victim :: victim in before && after.Keys == before.Keys - {victim} + {u.key}
           && SmallestPut(victim, before.Keys, us))
  }

  ghost predicate SmallestPut(victim: octets, keys: set<octets>, us: seq<Update>)
  {
    && victim in LastPuts(us)
    && forall k :: k in keys ==> k in LastPuts(us) && LastPuts(us)[victim].seqNo <= LastPuts(us)[k].seqNo
  }

  lemma HeldIsPut(slots: seq<Slot>, us: seq<Update>)
    requires HoldsPuts(slots, us)
    ensures Unique(slots)
    ensures forall k :: k in View(slots) ==> k in LastPuts(us) && View(slots)[k].seqNo == LastPuts(us)[k].seqNo
  {
    hide View, LastPuts, Unique, Stored;
  }

  lemma OldestIsSmallestPut(before: map<octets, Entry>, us: seq<Update>, victim: octets)
    requires forall k :: k in before ==> k in LastPuts(us) && before[k].seqNo == LastPuts(us)[k].seqNo
    requires victim in before && forall j :: j in before ==> before[victim].seqNo <= before[j].seqNo
    ensures SmallestPut(victim, before.Keys, us)
  {
    hide LastPuts;
  }

  lemma MapPut(before: map<octets, Entry>, given: set<octets>, key: octets, e: Entry)
    ensures var after := (before - given)[key := e];
      && after.Keys == before.Keys - given + {key} && after[key] == e
      && (forall k :: k in after && k != key ==> k in before && after[k] == before[k])
      && (given == {} || given == {key} ==> after == before[key := e] && after.Keys == before.Keys + {key})
  {
  }

  lemma PutEvicts(slots: seq<Slot>, us: seq<Update>, u: Update)
    requires slots != [] && HoldsPuts(slots, us) && Fits(u.key, 191)
    ensures EvictsSmallest(View(slots), View(PutSlots(slots, u)), |slots|, us, u)
  {
    hide Stored, View, PutSlots, EntryFor, LastPuts, Unique, Records, HoldsPuts, SmallestPut, FirstFree, EvictsSmallest;
    HeldIsPut(slots, us);
    UniqueKeptExactly(slots, u);
    StoredExactly(u.key, 191);
    PutRefines(slots, u);
    EntryRecords(u);
    KeysCounted(slots);
    var before := View(slots);
    if u.key in before || |before| < |slots| {
      MapPut(before, {u.key}, u.key, EntryFor(u));
      MapPut(before, {}, u.key, EntryFor(u));
      EvictsNothing(before, |slots|, us, u);
    } else {
      var victim :| victim in before && (forall j :: j in before ==> before[victim].seqNo <= before[j].seqNo)
        && View(PutSlots(slots, u)) == (before - {victim})[u.key := EntryFor(u)];
      OldestIsSmallestPut(before, us, victim);
      EvictsOne(before, |slots|, us, u, victim);
    }
  }

  lemma EvictsNothing(before: map<octets, Entry>, size: nat, us: seq<Update>, u: Update)
    requires |before| <= size && (u.key in before || |before| < size) && Records(EntryFor(u), u)
    ensures EvictsSmallest(before, before[u.key := EntryFor(u)], size, us, u)
  {
    hide Records, EntryFor, SmallestPut;
  }

  lemma EvictsOne(before: map<octets, Entry>, size: nat, us: seq<Update>, u: Update, victim: octets)
    requires |before| == size && u.key !in before && victim in before && Records(EntryFor(u), u)
    requires SmallestPut(victim, before.Keys, us)
    ensures EvictsSmallest(before, (before - {victim})[u.key := EntryFor(u)], size, us, u)
  {
    hide Records, EntryFor, SmallestPut;
    MapPut(before, {victim}, u.key, EntryFor(u));
  }

  /** Every run of puts into a fresh table behaves so. */
  lemma EvictsSmallestPut(size: nat, us: seq<Update>, u: Update)
    requires size > 0 && AllFit(us) && Fits(u.key, 191)
    ensures EvictsSmallest(View(PutAll(Fresh(size), us)), View(PutAll(Fresh(size), us + [u])), size, us, u)
  {
    hide EvictsSmallest, HoldsPuts, PutAll;
    HoldsLastPuts(size, us);
    PutAllSnoc(Fresh(size), us, u);
    PutEvicts(PutAll(Fresh(size), us), us, u);
  }

  /** The line of an update put: type code, number, time, key and text, separated by bars. */
  lemma LineOfPut(t: DoubleText, u: Update)
    ensures Line(t, EntryFor(u)) ==
      (match u.value
       case BoolValue(_) => [49]
       case DoubleValue(_) => [50]
       case StringValue(_) => [51]
       case StringArrayValue(_) => [52])
      + [124] + ToDecimal(u.seqNo) + [124] + ToDecimal(u.timestampUs) + [124] + Escape(Stored(u.key, 191)) + [124]
      + match u.value
        case BoolValue(flag) => [if flag then 49 else 48]
        case DoubleValue(raw) => t.show(raw)
        case StringValue(text) => Escape(Stored(text, 511))
        case StringArrayValue(items) => Escape(Stored(Pack(items), 511))
  {
    hide Stored, Pack, Escape;
  }

  // ---------------------------------------------------------------- the file

  /** How doubles are printed and read; the dashboard uses decimal text with 17 significant digits. */
  datatype DoubleText = DoubleText(show: raw8 -> octets, parse: octets -> Option<raw8>)

  predicate Plain(s: octets)
  {
    forall i :: 0 <= i < |s| ==> !Special(s[i])
  }

  /** The text of d reads back as d and needs no escaping. */
  predicate Faithful(t: DoubleText, d: raw8)
  {
    t.parse(t.show(d)) == Some(d) && Plain(t.show(d)) && END_MARK !in t.show(d)
  }

  predicate AllFaithful(t: DoubleText, slots: seq<Slot>)
  {
    forall i :: 0 <= i < |slots| && slots[i].Held? && slots[i].entry.cell.DoubleCell? ==>
      Faithful(t, slots[i].entry.cell.raw)
  }

  function CellText(t: DoubleText, c: Cell): octets
  {
    match c
    case BoolCell(flag) => [if flag then 49 else 48]
    case DoubleCell(raw) => t.show(raw)
    case ArrayCell(packed) => packed
    case TextCell(text) => text
  }

  function FieldsOf(t: DoubleText, e: Entry): seq<octets>
  {
    [ToDecimal(e.kind), ToDecimal(e.seqNo), ToDecimal(e.timestampUs), e.key, CellText(t, e.cell)]
  }

  /** One line as it is written: numbers and doubles unescaped, texts escaped. */
  function Line(t: DoubleText, e: Entry): octets
  {
    ToDecimal(e.kind) + [BAR] + ToDecimal(e.seqNo) + [BAR] + ToDecimal(e.timestampUs) + [BAR] + Escape(e.key) + [BAR]
    + CellEscaped(t, e.cell)
  }

  function CellEscaped(t: DoubleText, c: Cell): octets
  {
    match c
    case BoolCell(flag) => [if flag then 49 else 48]
    case DoubleCell(raw) => t.show(raw)
    case ArrayCell(packed) => Escape(packed)
    case TextCell(text) => Escape(text)
  }

  function Persisted(t: DoubleText, slots: seq<Slot>): octets
  {
    if slots == [] then []
    else (if slots[0].Held? then Line(t, slots[0].entry) + [NEWLINE] else []) + Persisted(t, slots[1..])
  }

  function Entries(slots: seq<Slot>): seq<Entry>
  {
    if slots == [] then [] else (if slots[0].Held? then [slots[0].entry] else []) + Entries(slots[1..])
  }

  function CellFromText(t: DoubleText, kind: byte, s: octets): Option<Cell>
  {
    if kind == 1 then Some(BoolCell(s == [49]))
    else if kind == 2 then
      match t.parse(s)
      case None => None
      case Some(d) => Some(DoubleCell(d))
    else if kind == 4 then Some(ArrayCell(Stored(s, MAX_STRING_BYTES)))
    else Some(TextCell(Stored(s, MAX_STRING_BYTES)))
  }

  /** The entry five fields describe; None where a conversion throws. */
  function EntryFromFields(t: DoubleText, f: seq<octets>): Option<Entry>
    requires |f| == 5
  {
    var kind, seqNo, ts := ParseKind(f[0]), ParseUint64(f[1]), ParseUint64(f[2]);
    if kind.None? || seqNo.None? || ts.None? then None
    else
      var cell := CellFromText(t, kind.value, f[4]);
      if cell.None? then None
      else Some(Entry(Stored(f[3], MAX_KEY_BYTES), kind.value, cell.value, seqNo.value, ts.value))
  }

  /** Reads lines until there are none left or the table is full; a conversion error ends the program. */
  function LoadLines(t: DoubleText, lines: seq<octets>, room: nat): Option<seq<Entry>>
    decreases |lines|
  {
    if lines == [] || room == 0 then Some([])
    else
      var f := Split(lines[0]);
      if |f| != 5 then LoadLines(t, lines[1..], room)
      else
        var e := EntryFromFields(t, f);
        if e.None? then None else Then([e.value], LoadLines(t, lines[1..], room - 1))
  }

  function Then(a: seq<Entry>, b: Option<seq<Entry>>): Option<seq<Entry>>
  {
    if b.None? then None else Some(a + b.value)
  }

  function Loaded(t: DoubleText, text: octets, room: nat): Option<seq<Entry>>
  {
    LoadLines(t, Lines(text), room)
  }

  function BlankCell(kind: byte): Cell
  {
    if kind == 1 then BoolCell(false)
    else if kind == 2 then DoubleCell([0, 0, 0, 0, 0, 0, 0, 0])
    else if kind == 4 then ArrayCell([])
    else TextCell([])
  }

  /** What is left in a slot when a conversion throws while it is being filled. */
  function Interrupted(f: seq<octets>): Entry
    requires |f| == 5
  {
    var kind, seqNo, ts := ParseKind(f[0]), ParseUint64(f[1]), ParseUint64(f[2]);
    if kind.None? then Entry([], 0, BlankCell(0), 0, 0)
    else if seqNo.None? then Entry([], kind.value, BlankCell(kind.value), 0, 0)
    else if ts.None? then Entry([], kind.value, BlankCell(kind.value), seqNo.value, 0)
    else Entry(Stored(f[3], MAX_KEY_BYTES), kind.value, BlankCell(kind.value), seqNo.value, ts.value)
  }

  /** What the table holds after reading the lines, whether or not a conversion has thrown. */
  function LeftInTable(t: DoubleText, lines: seq<octets>, room: nat): (es: seq<Entry>)
    ensures |es| <= room
    decreases |lines|
  {
    if lines == [] || room == 0 then []
    else
      var f := Split(lines[0]);
      if |f| != 5 then LeftInTable(t, lines[1..], room)
      else
        var e := EntryFromFields(t, f);
        if e.None? then [Interrupted(f)] else [e.value] + LeftInTable(t, lines[1..], room - 1)
  }

  /** Without a throw that is exactly what was loaded. */
  lemma {:induction false} LeftIsLoaded(t: DoubleText, lines: seq<octets>, room: nat)
    ensures LoadLines(t, lines, room).Some? ==> LeftInTable(t, lines, room) == LoadLines(t, lines, room).value
    decreases |lines|
  {
    hide EntryFromFields, SplitFrom;
    if lines != [] && room > 0 {
      LeftIsLoaded(t, lines[1..], room);
      LeftIsLoaded(t, lines[1..], room - 1);
    }
  }

  /** The byte is in no key or text of the entry. */
  predicate Avoids(e: Entry, c: byte)
  {
    && c !in e.key
    && match e.cell
       case ArrayCell(packed) => c !in packed
       case TextCell(text) => c !in text
       case _ => true
  }

  /** What a text file can carry: no newline and, on Windows, no end mark. */
  predicate Lasts(mode: TextMode, e: Entry)
  {
    Avoids(e, NEWLINE) && (mode.Windows? ==> Avoids(e, END_MARK))
  }

  predicate AllLast(mode: TextMode, slots: seq<Slot>)
  {
    forall i :: 0 <= i < |slots| && slots[i].Held? ==> Lasts(mode, slots[i].entry)
  }

  lemma LineJoinsFields(t: DoubleText, e: Entry)
    requires e.cell.DoubleCell? ==> Faithful(t, e.cell.raw)
    ensures Line(t, e) == JoinFields(FieldsOf(t, e))
  {
    hide ToDecimal, Escape, JoinFields;
    var f := FieldsOf(t, e);
    NumberRoundTrip(e.kind);
    NumberRoundTrip(e.seqNo);
    NumberRoundTrip(e.timestampUs);
    CellTextEscapes(t, e.cell);
    JoinFive(f[0], f[1], f[2], f[3], f[4]);
  }

  lemma CellTextEscapes(t: DoubleText, c: Cell)
    requires c.DoubleCell? ==> Faithful(t, c.raw)
    ensures CellEscaped(t, c) == Escape(CellText(t, c))
  {
    if c.BoolCell? || c.DoubleCell? {
      PlainIsUnescaped(CellText(t, c));
    }
  }

  lemma JoinFive(a: octets, b: octets, c: octets, d: octets, e: octets)
    ensures JoinFields([a, b, c, d, e]) ==
      Escape(a) + [BAR] + Escape(b) + [BAR] + Escape(c) + [BAR] + Escape(d) + [BAR] + Escape(e)
  {
    hide Escape, JoinFields;
    var ea, eb, ec, ed, ee := Escape(a), Escape(b), Escape(c), Escape(d), Escape(e);
    JoinOne(e);
    JoinCons(d, [e]);
    JoinCons(c, [d, e]);
    JoinCons(b, [c, d, e]);
    JoinCons(a, [b, c, d, e]);
    assert [d] + [e] == [d, e] && [c] + [d, e] == [c, d, e];
    assert [b] + [c, d, e] == [b, c, d, e] && [a] + [b, c, d, e] == [a, b, c, d, e];
    BarAssoc(ec, ed, ee);
    BarAssoc(eb, ec + [BAR] + ed, ee);
    BarAssoc(eb, ec, ed);
    BarAssoc(ea, eb + [BAR] + ec + [BAR] + ed, ee);
    BarAssoc(ea, eb + [BAR] + ec, ed);
    BarAssoc(ea, eb, ec);
  }

  lemma JoinOne(f: octets)
    ensures JoinFields([f]) == Escape(f)
  {
  }

  lemma JoinCons(f: octets, rest: seq<octets>)
    requires rest != []
    ensures JoinFields([f] + rest) == Escape(f) + [BAR] + JoinFields(rest)
  {
    assert ([f] + rest)[1..] == rest;
  }

  lemma BarAssoc(x: octets, y: octets, z: octets)
    ensures x + [BAR] + (y + [BAR] + z) == x + [BAR] + y + [BAR] + z
  {
  }

  lemma EntryRoundTrip(t: DoubleText, e: Entry)
    requires WellFormed(e)
    requires e.cell.DoubleCell? ==> Faithful(t, e.cell.raw)
    ensures Split(Line(t, e)) == FieldsOf(t, e)
    ensures EntryFromFields(t, FieldsOf(t, e)) == Some(e)
  {
    hide ToDecimal, Escape, JoinFields, SplitFrom, Stored, Line, Scan;
    LineJoinsFields(t, e);
    SplitUndoesJoin(FieldsOf(t, e));
    NumberRoundTrip(e.kind);
    NumberRoundTrip(e.seqNo);
    NumberRoundTrip(e.timestampUs);
    StoredExactly(e.key, MAX_KEY_BYTES);
    if e.cell.ArrayCell? {
      StoredExactly(e.cell.packed, MAX_STRING_BYTES);
    } else if e.cell.TextCell? {
      StoredExactly(e.cell.text, MAX_STRING_BYTES);
    }
  }

  lemma LineAvoids(t: DoubleText, e: Entry, c: byte)
    requires e.cell.DoubleCell? ==> Faithful(t, e.cell.raw)
    requires (c == NEWLINE || c == END_MARK) && Avoids(e, c)
    ensures c !in Line(t, e)
  {
    hide ToDecimal, Escape;
    DecimalRoundTrip(e.kind);
    DecimalRoundTrip(e.seqNo);
    DecimalRoundTrip(e.timestampUs);
    EscapeKeeps(e.key, c);
    match e.cell
    case ArrayCell(packed) => EscapeKeeps(packed, c);
    case TextCell(text) => EscapeKeeps(text, c);
    case _ =>
  }

  lemma {:induction false} PersistedAvoidsMark(t: DoubleText, slots: seq<Slot>)
    requires AllFaithful(t, slots) && AllLast(Windows, slots)
    ensures END_MARK !in Persisted(t, slots)
    decreases |slots|
  {
    hide Line, Faithful, Avoids;
    if slots != [] {
      if slots[0].Held? {
        LineAvoids(t, slots[0].entry, END_MARK);
      }
      PersistedAvoidsMark(t, slots[1..]);
    }
  }

  lemma {:induction false} CleanFileLoads(t: DoubleText, slots: seq<Slot>, room: nat)
    requires AllWellFormed(slots) && AllFaithful(t, slots) && |Entries(slots)| <= room
    requires forall i :: 0 <= i < |slots| && slots[i].Held? ==> Avoids(slots[i].entry, NEWLINE)
    ensures Loaded(t, Persisted(t, slots), room) == Some(Entries(slots))
    decreases |slots|
  {
    hide Line, Split, EntryFromFields, Lines, WellFormed, Faithful, Avoids, FieldsOf;
    if slots == [] {
      NoLines();
    } else {
      var rest := Persisted(t, slots[1..]);
      if slots[0].Held? {
        var e := slots[0].entry;
        LineAvoids(t, e, NEWLINE);
        FirstLine(Line(t, e), rest);
        EntryRoundTrip(t, e);
        FiveFields(t, e);
        CleanFileLoads(t, slots[1..], room - 1);
        assert ([Line(t, e)] + Lines(rest))[1..] == Lines(rest);
      } else {
        assert [] + rest == rest;
        CleanFileLoads(t, slots[1..], room);
        assert [] + Entries(slots[1..]) == Entries(slots[1..]);
      }
    }
  }

  lemma NoLines()
    ensures Lines([]) == []
  {
  }

  lemma FiveFields(t: DoubleText, e: Entry)
    ensures |FieldsOf(t, e)| == 5
  {
  }

  lemma {:induction false} CStringAddsNothing(s: octets, c: byte)
    requires c !in s
    ensures c !in CString(s)
  {
    CStringIs(s);
  }

  /** Nothing loaded contains a byte that no line contains. */
  lemma {:induction false} LoadedAvoids(t: DoubleText, lines: seq<octets>, room: nat, i: nat, c: byte)
    requires forall j :: 0 <= j < |lines| ==> c !in lines[j]
    requires LoadLines(t, lines, room).Some? && i < |LoadLines(t, lines, room).value| && c != BACKSLASH
    ensures Avoids(LoadLines(t, lines, room).value[i], c)
    decreases |lines|
  {
    hide ParseKind, ParseUint64, Stored, SplitFrom;
    var f := Split(lines[0]);
    if |f| != 5 {
      LoadedAvoids(t, lines[1..], room, i, c);
    } else if i > 0 {
      LoadedAvoids(t, lines[1..], room - 1, i - 1, c);
    } else {
      SplitAddsNothing(lines[0], [], false, 3, c);
      SplitAddsNothing(lines[0], [], false, 4, c);
      StoredAddsNothing(f[3], MAX_KEY_BYTES, c);
      StoredAddsNothing(f[4], MAX_STRING_BYTES, c);
    }
  }

  lemma StoredAddsNothing(s: octets, max: nat, c: byte)
    requires c !in s
    ensures c !in Stored(s, max)
  {
    CStringAddsNothing(Prefix(s, max), c);
  }

  lemma {:induction false} EntriesInclude(slots: seq<Slot>, i: nat)
    requires i < |slots| && slots[i].Held?
    ensures slots[i].entry in Entries(slots)
    decreases |slots|
  {
    if i > 0 {
      EntriesInclude(slots[1..], i - 1);
    }
  }

  lemma {:induction false} EntriesAtMost(slots: seq<Slot>)
    ensures |Entries(slots)| <= |slots|
  {
    if slots != [] {
      EntriesAtMost(slots[1..]);
    }
  }

  /** The text read from the file that the table was written to. */
  function ReadBack(mode: TextMode, t: DoubleText, slots: seq<Slot>): octets
  {
    FromNative(mode, ToNative(mode, Persisted(t, slots)))
  }

  lemma LoadedLasts(mode: TextMode, t: DoubleText, slots: seq<Slot>, room: nat, i: nat)
    requires Loaded(t, ReadBack(mode, t, slots), room).Some?
    requires i < |Loaded(t, ReadBack(mode, t, slots), room).value|
    ensures Lasts(mode, Loaded(t, ReadBack(mode, t, slots), room).value[i])
  {
    hide Lines, LoadLines, Persisted, Avoids, UntilMark;
    var text := ReadBack(mode, t, slots);
    forall j | 0 <= j < |Lines(text)|
      ensures NEWLINE !in Lines(text)[j] && (mode.Windows? ==> END_MARK !in Lines(text)[j])
    {
      LinesHaveNoNewline(text, j);
      if mode.Windows? {
        TextRoundTrip(mode, Persisted(t, slots));
        UntilMarkIs(Persisted(t, slots));
        LinesAddNothing(text, j, END_MARK);
      }
    }
    LoadedAvoids(t, Lines(text), room, i, NEWLINE);
    if mode.Windows? {
      LoadedAvoids(t, Lines(text), room, i, END_MARK);
    }
  }

  /** Loading what was persisted restores exactly the held entries, in slot order, if and only if no key or
    * text contains a newline or, on Windows, an end mark: the newline is escaped but still written, and the
    * reader splits lines first.
    */
  lemma PersistLoadExactly(mode: TextMode, t: DoubleText, slots: seq<Slot>)
    requires AllWellFormed(slots) && AllFaithful(t, slots)
    ensures Loaded(t, ReadBack(mode, t, slots), |slots|) == Some(Entries(slots)) <==> AllLast(mode, slots)
  {
    hide Lines, Loaded, Persisted, Entries, Avoids, WellFormed, Faithful, ToNative, FromNative;
    EntriesAtMost(slots);
    var loaded := Loaded(t, ReadBack(mode, t, slots), |slots|);
    if AllLast(mode, slots) {
      TextRoundTrip(mode, Persisted(t, slots));
      if mode.Windows? {
        PersistedAvoidsMark(t, slots);
      }
      CleanFileLoads(t, slots, |slots|);
    } else {
      var i :| 0 <= i < |slots| && slots[i].Held? && !Lasts(mode, slots[i].entry);
      EntriesInclude(slots, i);
      if loaded == Some(Entries(slots)) {
        var j :| 0 <= j < |loaded.value| && loaded.value[j] == slots[i].entry;
        LoadedLasts(mode, t, slots, |slots|, j);
      }
    }
  }

  /** One put with a newline in its key is not restored. */
  lemma NewlineIsNotRestored(mode: TextMode, t: DoubleText, u: Update)
    requires Fits(u.key, MAX_KEY_BYTES) && NEWLINE in u.key && u.value.BoolValue?
    ensures var slots := PutSlots([Free], u);
      slots == [Held(EntryFor(u))] && Loaded(t, ReadBack(mode, t, slots), 1) != Some(Entries(slots))
  {
    hide Stored, Loaded, Persisted, ReadBack, Entries, Oldest, OldestSeq;
    StoredExactly(u.key, MAX_KEY_BYTES);
    EntryForWellFormed(u);
    var slots := PutSlots([Free], u);
    assert slots == [Held(EntryFor(u))];
    PersistLoadExactly(mode, t, slots);
    assert !Avoids(slots[0].entry, NEWLINE);
  }

  /** Where a conversion throws, the slot keeps what was converted before it: type, number, time, and key if only
    * the value failed, and an empty value of the type; the rest is zero.
    */
  lemma ThrowLeaves(t: DoubleText, line: octets, room: nat)
    requires |Split(line)| == 5 && EntryFromFields(t, Split(line)).None? && room > 0
    ensures LoadLines(t, [line], room).None? && |LeftInTable(t, [line], room)| == 1
    ensures var f, e := Split(line), LeftInTable(t, [line], room)[0];
      && e.kind == (if ParseKind(f[0]).Some? then ParseKind(f[0]).value else 0)
      && e.seqNo == (if ParseKind(f[0]).Some? && ParseUint64(f[1]).Some? then ParseUint64(f[1]).value else 0)
      && (e.timestampUs != 0 || e.key != [] ==>
           && ParseKind(f[0]) == Some(2) && ParseUint64(f[1]).Some? && ParseUint64(f[2]) == Some(e.timestampUs)
           && e.key == Stored(f[3], 191) && t.parse(f[4]).None?)
      && (ParseKind(f[0]).Some? && ParseUint64(f[1]).Some? && ParseUint64(f[2]).Some? ==>
           e.timestampUs == ParseUint64(f[2]).value && e.key == Stored(f[3], 191))
      && e.cell == match e.kind
                   case 1 => BoolCell(false)
                   case 2 => DoubleCell([0, 0, 0, 0, 0, 0, 0, 0])
                   case 4 => ArrayCell([])
                   case _ => TextCell([])
  {
    hide Split, SplitFrom, Stored, ParseKind, ParseUint64;
  }

  /** Lines that do not split into five fields are passed over. */
  lemma {:induction false} OddLineIsSkipped(t: DoubleText, before: seq<octets>, odd: octets, later: seq<octets>,
                                            room: nat)
    requires |Split(odd)| != 5
    ensures LoadLines(t, before + ([odd] + later), room) == LoadLines(t, before + later, room)
    ensures LeftInTable(t, before + ([odd] + later), room) == LeftInTable(t, before + later, room)
    decreases |before|
  {
    hide Split, SplitFrom, EntryFromFields, Interrupted;
    if before == [] {
      assert [] + ([odd] + later) == [odd] + later && [] + later == later && ([odd] + later)[1..] == later;
    } else {
      assert (before + ([odd] + later))[1..] == before[1..] + ([odd] + later);
      assert (before + later)[1..] == before[1..] + later;
      OddLineIsSkipped(t, before[1..], odd, later, room);
      if room > 0 {
        OddLineIsSkipped(t, before[1..], odd, later, room - 1);
      }
    }
  }

  // ---------------------------------------------------------------- a restart

  /** A fresh table of the given size filled with entries from the front, as loading fills it. */
  function Filled(entries: seq<Entry>, size: nat): (slots: seq<Slot>)
    requires |entries| <= size
    ensures |slots| == size
  {
    if size == 0 then []
    else if entries == [] then [Free] + Filled([], size - 1)
    else [Held(entries[0])] + Filled(entries[1..], size - 1)
  }

  lemma {:induction false} FilledAt(entries: seq<Entry>, size: nat)
    requires |entries| <= size
    ensures forall i :: 0 <= i < size ==> Filled(entries, size)[i] == if i < |entries| then Held(entries[i]) else Free
    decreases size
  {
    if size > 0 {
      FilledAt(if entries == [] then [] else entries[1..], size - 1);
    }
  }

  lemma {:induction false} EntriesCome(slots: seq<Slot>, e: Entry)
    ensures e in Entries(slots) <==> Held(e) in slots
    decreases |slots|
  {
    if slots != [] {
      EntriesCome(slots[1..], e);
      assert slots == [slots[0]] + slots[1..];
    }
  }

  lemma {:induction false} EntriesUnique(slots: seq<Slot>)
    requires Unique(slots)
    ensures forall i, j :: 0 <= i < j < |Entries(slots)| ==> Entries(slots)[i].key != Entries(slots)[j].key
    decreases |slots|
  {
    if slots != [] {
      EntriesUnique(slots[1..]);
      forall e | slots[0].Held? && e in Entries(slots[1..])
        ensures e.key != slots[0].entry.key
      {
        EntriesCome(slots[1..], e);
        var j :| 0 <= j < |slots[1..]| && slots[1..][j] == Held(e);
        assert slots[j + 1] == Held(e);
      }
    }
  }

  /** Compacting the table keeps it unique and keeps the map it stands for. */
  lemma CompactionKeepsView(slots: seq<Slot>)
    requires Unique(slots)
    ensures |Entries(slots)| <= |slots|
    ensures Unique(Filled(Entries(slots), |slots|)) && View(Filled(Entries(slots), |slots|)) == View(slots)
  {
    hide View, Entries, Filled;
    EntriesAtMost(slots);
    EntriesUnique(slots);
    var es := Entries(slots);
    var after := Filled(es, |slots|);
    FilledAt(es, |slots|);
    assert Unique(after);
    forall k
      ensures k in View(slots) <==> k in View(after)
      ensures k in View(slots) ==> View(slots)[k] == View(after)[k]
    {
      SameHolder(slots, after, k);
    }
  }

  lemma SameHolder(slots: seq<Slot>, after: seq<Slot>, k: octets)
    requires Unique(slots) && Unique(after) && |Entries(slots)| <= |after|
    requires forall i :: 0 <= i < |after| ==> after[i] == if i < |Entries(slots)| then Held(Entries(slots)[i]) else Free
    ensures k in View(slots) <==> k in View(after)
    ensures k in View(slots) ==> View(slots)[k] == View(after)[k]
  {
    hide View, Entries, Unique;
    HeldByKey(slots, k);
    HeldByKey(after, k);
    var h, h' := Holder(slots, k), Holder(after, k);
    if h >= 0 {
      EntriesCome(slots, slots[h].entry);
      var j :| 0 <= j < |Entries(slots)| && Entries(slots)[j] == slots[h].entry;
      assert after[j] == slots[h] && HoldsKey(after[j], k);
      ViewAt(slots, h);
      ViewAt(after, j);
    }
    if h' >= 0 {
      EntriesCome(slots, after[h'].entry);
      var i :| 0 <= i < |slots| && slots[i] == after[h'];
      assert HoldsKey(slots[i], k);
    }
  }

  predicate CleanUpdate(mode: TextMode, t: DoubleText, u: Update)
  {
    && Fits(u.key, MAX_KEY_BYTES) && Lasts(mode, EntryFor(u))
    && (u.value.DoubleValue? ==> Faithful(t, u.value.raw))
  }

  lemma {:induction false} RunKeepsClean(mode: TextMode, t: DoubleText, slots: seq<Slot>, us: seq<Update>)
    requires slots != [] && AllFaithful(t, slots) && AllLast(mode, slots)
    requires forall i :: 0 <= i < |us| ==> CleanUpdate(mode, t, us[i])
    ensures AllFaithful(t, PutAll(slots, us)) && AllLast(mode, PutAll(slots, us))
    decreases |us|
  {
    hide Target, Stored, Lasts, Faithful, Pack;
    if us != [] {
      assert CleanUpdate(mode, t, us[0]);
      RunKeepsClean(mode, t, PutSlots(slots, us[0]), us[1..]);
    }
  }

  /** A table loaded without a throw holds exactly the entries loaded. */
  lemma LoadedFills(t: DoubleText, text: octets, size: nat)
    requires Loaded(t, text, size).Some?
    ensures |Loaded(t, text, size).value| <= size
    ensures Filled(LeftInTable(t, Lines(text), size), size) == Filled(Loaded(t, text, size).value, size)
  {
    hide LoadLines, LeftInTable, Lines;
    LeftIsLoaded(t, Lines(text), size);
  }

  /** After any run of puts into a fresh table, a restart loads the persisted file without a throw, and the
    * table it leaves answers every lookup as before, for keys that fit and texts that last.
    */
  lemma RestartKeepsReads(mode: TextMode, t: DoubleText, size: nat, us: seq<Update>, key: octets, kind: byte)
    requires size > 0 && forall i :: 0 <= i < |us| ==> CleanUpdate(mode, t, us[i])
    ensures var slots := PutAll(Fresh(size), us);
      var text := ReadBack(mode, t, slots);
      && Loaded(t, text, size).Some?
      && GetSlots(Filled(LeftInTable(t, Lines(text), size), size), key, kind) == GetSlots(slots, key, kind)
  {
    hide PutAll, Filled, Loaded, LeftInTable, Lines, ReadBack, GetSlots, View, Entries, WellFormed, Lasts, Faithful;
    var empty := Fresh(size);
    RunKeepsTable(empty, us);
    RunKeepsClean(mode, t, empty, us);
    var slots := PutAll(empty, us);
    PersistLoadExactly(mode, t, slots);
    LoadedFills(t, ReadBack(mode, t, slots), size);
    CompactionKeepsView(slots);
    GetSeesView(slots, key, kind);
    GetSeesView(Filled(Entries(slots), size), key, kind);
  }

  // ---------------------------------------------------------------- the store object

  class DirectRetainedStore {
    const entries: array<Slot>
    const codec: DoubleText
    const persistent: bool
    const mode: TextMode
    var file: octets

    constructor (maxEntries: nat, codec: DoubleText, persistent: bool, mode: TextMode)
      ensures fresh(entries) && entries.Length == (if maxEntries < 16 then 16 else maxEntries)
      ensures forall i :: 0 <= i < entries.Length ==> entries[i] == Free
      ensures this.codec == codec && this.persistent == persistent && this.mode == mode && file == []
    {
      entries := new Slot[if maxEntries < 16 then 16 else maxEntries](_ => Free);
      this.codec, this.persistent, this.mode := codec, persistent, mode;
      file := [];
    }

    /** One scan finds the key's slot, the first free slot and the oldest entry. */
    method FindSlot(key: octets) returns (idx: nat)
      requires entries.Length > 0
      ensures idx == Target(entries[..], key)
    {
      hide Holder, FirstFree, Oldest, OldestSeq;
      ghost var slots := entries[..];
      var found, freeIdx := -1, -1;
      var oldestSeq: uint64 := 0xFFFF_FFFF_FFFF_FFFF;
      var oldestIdx: nat := 0;
      var i := 0;
      ScanStart(slots);
      while i < entries.Length
        invariant 0 <= i <= entries.Length && found == -1
        invariant forall j :: 0 <= j < i ==> !HoldsKey(slots[j], key)
        invariant freeIdx == -1 ==> forall j :: 0 <= j < i ==> slots[j].Held?
        invariant freeIdx >= 0 ==> freeIdx == FirstFree(slots)
        invariant freeIdx == -1 || 0 <= freeIdx < i
        invariant oldestSeq == OldestSeq(slots, i) && oldestIdx == Oldest(slots, i)
      {
        var e := entries[i];
        ScanStep(slots, i);
        if e.Free? {
          if freeIdx < 0 {
            freeIdx := i;
            FreeFound(slots, i);
          }
          i := i + 1;
          continue;
        }
        if e.entry.seqNo < oldestSeq {
          oldestSeq := e.entry.seqNo;
          oldestIdx := i;
        }
        if e.entry.key == key {
          found := i;
          HolderFound(slots, key, i);
          break;
        }
        i := i + 1;
      }
      if found < 0 {
        HolderMissing(slots, key);
      }
      if freeIdx < 0 && found < 0 {
        FreeMissing(slots);
      }
      idx := if found >= 0 then found else if freeIdx >= 0 then freeIdx else oldestIdx;
    }

    method Put(u: Update, canOpen: bool) returns (persisted: bool)
      requires entries.Length > 0
      modifies this, entries
      ensures entries[..] == PutSlots(old(entries[..]), u)
      ensures persisted == (!persistent || canOpen)
      ensures file == if persistent && canOpen then ToNative(mode, Persisted(codec, entries[..])) else old(file)
    {
      hide Stored, Target;
      var idx := FindSlot(u.key);
      var key := ReadCString(Prefix(u.key, MAX_KEY_BYTES));
      var cell: Cell;
      match u.value {
        case BoolValue(flag) => cell := BoolCell(flag);
        case DoubleValue(raw) => cell := DoubleCell(raw);
        case StringArrayValue(items) =>
          var joined := JoinItems(items);
          var text := ReadCString(Prefix(joined, MAX_STRING_BYTES));
          cell := ArrayCell(text);
        case StringValue(s) =>
          var text := ReadCString(Prefix(s, MAX_STRING_BYTES));
          cell := TextCell(text);
      }
      StoredIsCString(u);
      entries[idx] := Held(Entry(key, WireType(u.value), cell, u.seqNo, u.timestampUs));
      persisted := PersistLocked(canOpen);
    }

    static method ReadCString(buffer: octets) returns (s: octets)
      ensures s == CString(buffer)
    {
      s := [];
      var i := 0;
      assert buffer[0..] == buffer;
      while i < |buffer| && buffer[i] != 0
        invariant 0 <= i <= |buffer|
        invariant s + CString(buffer[i..]) == CString(buffer)
      {
        assert buffer[i..][1..] == buffer[i + 1..];
        s := s + [buffer[i]];
        i := i + 1;
      }
    }

    static method JoinItems(items: seq<octets>) returns (joined: octets)
      ensures joined == Pack(items)
    {
      joined := [];
      for i := 0 to |items|
        invariant joined == Pack(items[..i])
      {
        PackSnoc(items[..i], items[i]);
        assert items[..i + 1] == items[..i] + [items[i]];
        if i > 0 {
          joined := joined + [UNIT_SEPARATOR];
        }
        joined := joined + items[i];
      }
      assert items[..|items|] == items;
    }

    /** Rewrites the file, if there is one to write and it can be opened. */
    method PersistLocked(canOpen: bool) returns (ok: bool)
      modifies this`file
      ensures ok == (!persistent || canOpen)
      ensures file == if persistent && canOpen then ToNative(mode, Persisted(codec, entries[..])) else old(file)
    {
      hide Persisted, ToNative;
      if !persistent {
        return true;
      }
      if !canOpen {
        return false;
      }
      var out := PrintTable();
      file := ToNative(mode, out);
      ok := true;
    }

    method PrintTable() returns (out: octets)
      ensures out == Persisted(codec, entries[..])
    {
      hide Line;
      ghost var slots := entries[..];
      out := [];
      assert slots[0..] == slots;
      for i := 0 to entries.Length
        invariant out + Persisted(codec, slots[i..]) == Persisted(codec, slots)
      {
        assert slots[i..][1..] == slots[i + 1..];
        ghost var rest := Persisted(codec, slots[i + 1..]);
        if entries[i].Free? {
          assert [] + rest == rest;
          continue;
        }
        var line := PrintLine(entries[i].entry);
        assert out + (line + [NEWLINE] + rest) == out + line + [NEWLINE] + rest;
        out := out + line + [NEWLINE];
      }
      assert out + [] == out;
    }

    method PrintLine(e: Entry) returns (line: octets)
      ensures line == Line(codec, e)
    {
      hide Escape, ToDecimal;
      var key := EscapeText(e.key);
      line := ToDecimal(e.kind) + [BAR] + ToDecimal(e.seqNo) + [BAR] + ToDecimal(e.timestampUs) + [BAR] + key + [BAR];
      match e.cell {
        case BoolCell(flag) => line := line + [if flag then 49 else 48];
        case DoubleCell(raw) => line := line + codec.show(raw);
        case ArrayCell(packed) =>
          var text := EscapeText(packed);
          line := line + text;
        case TextCell(s) =>
          var text := EscapeText(s);
          line := line + text;
      }
    }

    /** Clears the table and fills it from the file, if there is one and it can be opened; false where a
      * conversion throws.
      */
    method LoadLocked(canOpen: bool) returns (ok: bool)
      modifies entries
      ensures !(persistent && canOpen) ==> ok && entries[..] == old(entries[..])
      ensures persistent && canOpen ==>
        var text := FromNative(mode, file);
        && ok == Loaded(codec, text, entries.Length).Some?
        && entries[..] == Filled(LeftInTable(codec, Lines(text), entries.Length), entries.Length)
    {
      hide Lines, FromNative, LoadLines, LeftInTable, Filled;
      if !persistent || !canOpen {
        return true;
      }
      ok := FillFrom(Lines(FromNative(mode, file)));
    }

    method FillFrom(lines: seq<octets>) returns (ok: bool)
      modifies entries
      ensures ok == LoadLines(codec, lines, entries.Length).Some?
      ensures entries[..] == Filled(LeftInTable(codec, lines, entries.Length), entries.Length)
    {
      hide SplitFrom, EntryFromFields, Filled, Interrupted, LoadLines, LeftInTable;
      forall i | 0 <= i < entries.Length {
        entries[i] := Free;
      }
      ghost var left: seq<Entry> := [];
      var idx, next := 0, 0;
      assert lines[0..] == lines;
      ok := true;
      while next < |lines| && idx < entries.Length && ok
        invariant 0 <= next <= |lines| && |left| <= entries.Length && (ok ==> idx == |left|)
        invariant forall i :: 0 <= i < entries.Length ==> entries[i] == if i < |left| then Held(left[i]) else Free
        invariant ok ==>
          && (LoadLines(codec, lines, entries.Length).Some?
              <==> LoadLines(codec, lines[next..], entries.Length - idx).Some?)
          && LeftInTable(codec, lines, entries.Length)
             == left + LeftInTable(codec, lines[next..], entries.Length - idx)
        invariant !ok ==>
          LoadLines(codec, lines, entries.Length).None? && LeftInTable(codec, lines, entries.Length) == left
        decreases |lines| - next
      {
        LineFills(codec, lines, next, entries.Length - idx);
        var parts := SplitEscaped(lines[next]);
        next := next + 1;
        if |parts| != 5 {
          continue;
        }
        var e := EntryFromFields(codec, parts);
        var entry := if e.None? then Interrupted(parts) else e.value;
        ok := e.Some?;
        LeftSnoc(left, entry, if e.None? then [] else LeftInTable(codec, lines[next..], entries.Length - idx - 1));
        entries[idx] := Held(entry);
        left := left + [entry];
        if ok {
          idx := idx + 1;
        }
      }
      if ok {
        NothingFills(codec, lines, next, entries.Length - idx);
      }
      assert left + [] == left;
      FilledAt(left, entries.Length);
    }

    method TryGet(key: octets, kind: byte) returns (r: Option<Value>)
      ensures r == GetSlots(entries[..], key, kind)
    {
      hide ReadCell;
      ghost var slots := entries[..];
      assert slots[0..] == slots;
      for i := 0 to entries.Length
        invariant GetSlots(slots, key, kind) == GetSlots(slots[i..], key, kind)
      {
        var e := entries[i];
        assert slots[i..][1..] == slots[i + 1..];
        if e.Free? || e.entry.kind != kind || e.entry.key != key {
          continue;
        }
        var value := ReadValueOf(e.entry.cell);
        return Some(value);
      }
      return None;
    }

    static method ReadValueOf(c: Cell) returns (v: Value)
      ensures v == ReadCell(c)
    {
      match c {
        case BoolCell(flag) => v := BoolValue(flag);
        case DoubleCell(raw) => v := DoubleValue(raw);
        case TextCell(text) => v := StringValue(text);
        case ArrayCell(packed) =>
          var items: seq<octets> := [];
          var current: octets := [];
          assert packed[0..] == packed;
          for i := 0 to |packed|
            invariant items + UnpackFrom(packed[i..], current) == Unpack(packed)
          {
            assert packed[i..][1..] == packed[i + 1..];
            if packed[i] == UNIT_SEPARATOR {
              assert items + [current] + UnpackFrom(packed[i + 1..], [])
                  == items + ([current] + UnpackFrom(packed[i + 1..], []));
              items := items + [current];
              current := [];
            } else {
              current := current + [packed[i]];
            }
          }
          items := items + [current];
          v := StringArrayValue(items);
      }
    }
  }

  /** What one line does to the table being filled. */
  lemma LineFills(t: DoubleText, lines: seq<octets>, next: nat, room: nat)
    requires next < |lines| && room > 0
    ensures var f := Split(lines[next]);
      var here, later := lines[next..], lines[next + 1..];
      if |f| != 5 then
        && LoadLines(t, here, room) == LoadLines(t, later, room)
        && LeftInTable(t, here, room) == LeftInTable(t, later, room)
      else
        var e := EntryFromFields(t, f);
        if e.None? then LoadLines(t, here, room).None? && LeftInTable(t, here, room) == [Interrupted(f)]
        else
          && (LoadLines(t, here, room).Some? <==> LoadLines(t, later, room - 1).Some?)
          && LeftInTable(t, here, room) == [e.value] + LeftInTable(t, later, room - 1)
  {
    hide SplitFrom, EntryFromFields, Interrupted;
    assert lines[next..][1..] == lines[next + 1..];
  }

  lemma NothingFills(t: DoubleText, lines: seq<octets>, next: nat, room: nat)
    requires next <= |lines| && (next == |lines| || room == 0)
    ensures LoadLines(t, lines[next..], room) == Some([]) && LeftInTable(t, lines[next..], room) == []
  {
  }

  lemma LeftSnoc(left: seq<Entry>, e: Entry, rest: seq<Entry>)
    ensures left + ([e] + rest) == left + [e] + rest
  {
  }

  lemma {:induction false} PackSnoc(items: seq<octets>, item: octets)
    ensures Pack(items + [item]) == if items == [] then item else Pack(items) + [UNIT_SEPARATOR] + item
    decreases |items|
  {
    if |items| >= 1 {
      assert (items + [item])[1..] == items[1..] + [item];
      PackSnoc(items[1..], item);
      if |items| == 1 {
        assert items[1..] == [];
      } else {
        assert items[0] + [UNIT_SEPARATOR] + (Pack(items[1..]) + [UNIT_SEPARATOR] + item)
            == Pack(items) + [UNIT_SEPARATOR] + item;
      }
    }
  }

  lemma StoredIsCString(u: Update)
    ensures Stored(u.key, MAX_KEY_BYTES) == CString(Prefix(u.key, MAX_KEY_BYTES))
    ensures u.value.StringValue? ==>
      Stored(u.value.text, MAX_STRING_BYTES) == CString(Prefix(u.value.text, MAX_STRING_BYTES))
    ensures u.value.StringArrayValue? ==>
      Stored(Pack(u.value.items), MAX_STRING_BYTES) == CString(Prefix(Pack(u.value.items), MAX_STRING_BYTES))
  {
  }

  lemma ScanStart(slots: seq<Slot>)
    ensures OldestSeq(slots, 0) == 0xFFFF_FFFF_FFFF_FFFF && Oldest(slots, 0) == 0
  {
  }

  lemma ScanStep(slots: seq<Slot>, i: nat)
    requires i < |slots|
    ensures var older := slots[i].Held? && slots[i].entry.seqNo < OldestSeq(slots, i);
      && OldestSeq(slots, i + 1) == (if older then slots[i].entry.seqNo else OldestSeq(slots, i))
      && Oldest(slots, i + 1) == (if older then i else Oldest(slots, i))
  {
  }

  lemma FreeFound(slots: seq<Slot>, i: nat)
    requires i < |slots| && slots[i].Free? && forall j :: 0 <= j < i ==> slots[j].Held?
    ensures FirstFree(slots) == i
  {
    var r := FirstFree(slots);
    assert r >= 0 ==> slots[r].Free?;
  }

  lemma FreeMissing(slots: seq<Slot>)
    requires forall j :: 0 <= j < |slots| ==> slots[j].Held?
    ensures FirstFree(slots) == -1
  {
  }

  lemma HolderFound(slots: seq<Slot>, key: octets, i: nat)
    requires i < |slots| && HoldsKey(slots[i], key) && forall j :: 0 <= j < i ==> !HoldsKey(slots[j], key)
    ensures Holder(slots, key) == i
  {
  }

  lemma HolderMissing(slots: seq<Slot>, key: octets)
    requires forall j :: 0 <= j < |slots| ==> !HoldsKey(slots[j], key)
    ensures Holder(slots, key) == -1
  {
  }
}
