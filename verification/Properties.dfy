/** Property tables: after an object's name, entries of one header byte (number in the low five
    bits, size less one in the high three) and their data, in descending order of number. */
module Properties {
  import opened Bytes
  import opened ZState
  import opened Objects

  const MAX_PROPERTY: nat := 31

  /** The property number in a header byte: its low five bits. */
  function Num(info: byte): byte {
    info % 32
  }

  /** The size in a header byte: its high three bits and one. */
  function Size(info: byte): (size: byte)
    ensures 1 <= size <= 8
  {
    info / 32 + 1
  }

  function WordAt(story: seq<byte>, a: nat): Outcome<word> {
    if a + 1 < |story| then Ok(Word(story[a], story[a + 1])) else Stop(Undefined)
  }

  // ----- the instructions

  /** Where a property's data is, and its size. */
  datatype Found = Missing | At(addr: nat, size: nat)

  /** The walk over the entries at `ptr`; with `first` it stops at the first entry, whatever it is. */
  function FindProp(story: seq<byte>, ptr: nat, prop: nat, first: bool): (r: Outcome<Found>)
    ensures r.Ok? && r.value.At? ==> ptr < r.value.addr
    decreases |story| - ptr
  {
    var info :- ByteAt(story, ptr);
    if Num(info) == prop || first then Ok(At(ptr + 1, Size(info)))
    else if Num(info) < prop then Ok(Missing)
    else FindProp(story, ptr + 1 + Size(info), prop, first)
  }

  /** The address of an object's first entry, past its short name. */
  function FirstProp(story: seq<byte>, objtab: nat, id: word): Outcome<nat> {
    var obj :- ObjectPtr(objtab, id);
    var addr :- WordAt(story, obj + PROPERTIES);
    var words :- ByteAt(story, addr);
    Ok(addr as nat + 2 * words as nat + 1)
  }

  function GetObjectProperty(story: seq<byte>, objtab: nat, id: word, prop: word, first: bool): (r: Outcome<Found>)
    ensures r.Ok? && r.value.At? ==> 1 <= r.value.addr
  {
    var ptr :- FirstProp(story, objtab, id);
    FindProp(story, ptr, prop, first)
  }

  /** Write a value to a property's data: its low byte when the property has one, or else both. */
  function PutAt(story: seq<byte>, addr: nat, size: nat, value: word): (r: Outcome<seq<byte>>)
    ensures r.Ok? ==> |r.value| == |story|
  {
    if size == 1 then WithByte(story, addr, Lo(value))
    else
      var hi :- WithByte(story, addr, Hi(value));
      WithByte(hi, addr + 1, Lo(value))
  }

  /** Read the value of a property's data: its byte when it has one, or else its first two. */
  function ReadAt(story: seq<byte>, addr: nat, size: nat): Outcome<word> {
    if size == 1 then
      var b :- ByteAt(story, addr);
      Ok(b)
    else WordAt(story, addr)
  }

  /** `put_prop`: a missing property makes the interpreter die. */
  function PutProp(story: seq<byte>, objtab: nat, id: word, prop: word, value: word): (r: Outcome<seq<byte>>)
    ensures r.Ok? ==> |r.value| == |story|
  {
    var found :- GetObjectProperty(story, objtab, id, prop, false);
    if found.Missing? then Stop(Died) else PutAt(story, found.addr, found.size, value)
  }

  /** The default of a property no object overrides; numbers beyond 31 have none. */
  function DefaultProp(story: seq<byte>, objtab: nat, prop: word): Outcome<word> {
    if prop > MAX_PROPERTY then Ok(0)
    else if objtab + 2 * prop as nat < 2 then Stop(Undefined)
    else WordAt(story, objtab + 2 * prop as nat - 2)
  }

  /** `get_prop`. */
  function GetProp(story: seq<byte>, objtab: nat, id: word, prop: word): Outcome<word> {
    var found :- GetObjectProperty(story, objtab, id, prop, false);
    if found.Missing? then DefaultProp(story, objtab, prop) else ReadAt(story, found.addr, found.size)
  }

  /** `get_prop_addr`. */
  function GetPropAddr(story: seq<byte>, objtab: nat, id: word, prop: word): Outcome<word> {
    var found :- GetObjectProperty(story, objtab, id, prop, false);
    Ok(if found.Missing? then 0 else ToWord(found.addr))
  }

  /** `get_prop_len` of a data address: the size its header gives, or 0 for address 0. */
  function GetPropLen(story: seq<byte>, addr: word): Outcome<word> {
    if addr == 0 then Ok(0)
    else
      var info :- ByteAt(story, addr - 1);
      Ok(Size(info))
  }

  /** `get_next_prop`: the number after `prop`, or the first number when `prop` is 0. */
  function GetNextProp(story: seq<byte>, objtab: nat, id: word, prop: word): Outcome<word> {
    var found :- GetObjectProperty(story, objtab, id, prop, prop == 0);
    if found.Missing? then Stop(Died)
    else
      var info :- ByteAt(story, if prop == 0 then found.addr - 1 else found.addr + found.size);
      Ok(Num(info))
  }

  // ----- well-formed tables

  /** The entries from `a` on have numbers below `bound`, strictly descending, their data lies in
      the story, and an entry numbered 0 ends them. */
  ghost predicate Descending(story: seq<byte>, a: nat, bound: nat)
    decreases |story| - a
  {
    a < |story| &&
    var num, next := Num(story[a]), a + 1 + Size(story[a]);
    num != 0 ==> num < bound && next <= |story| && Descending(story, next, num)
  }

  datatype Entry = Entry(num: nat, addr: nat, size: nat)

  ghost function Entries(story: seq<byte>, a: nat, bound: nat): (es: seq<Entry>)
    requires Descending(story, a, bound)
    ensures forall i :: 0 <= i < |es| ==> 1 <= es[i].num < bound
    ensures forall i :: 0 <= i < |es| ==> a < es[i].addr && 1 <= es[i].size && es[i].addr + es[i].size <= |story|
    decreases |story| - a
  {
    if Num(story[a]) == 0 then []
    else
      [Entry(Num(story[a]), a + 1, Size(story[a]))]
      + Entries(story, a + 1 + Size(story[a]), Num(story[a]))
  }

  /** The address of the byte that ends the table. */
  ghost function End(story: seq<byte>, a: nat, bound: nat): (e: nat)
    requires Descending(story, a, bound)
    ensures a <= e < |story|
    decreases |story| - a
  {
    if Num(story[a]) == 0 then a else End(story, a + 1 + Size(story[a]), Num(story[a]))
  }

  /** Numbers descend strictly and data areas follow one another up to `end`. */
  ghost predicate Ordered(es: seq<Entry>, end: nat) {
    && (forall i, j :: 0 <= i < j < |es| ==> es[i].num > es[j].num && es[i].addr + es[i].size < es[j].addr)
    && (forall i :: 0 <= i < |es| ==> es[i].addr + es[i].size <= end)
  }

  lemma OrderedCons(e: Entry, rest: seq<Entry>, end: nat)
    requires Ordered(rest, end) && e.addr + e.size <= end
    requires forall i :: 0 <= i < |rest| ==> rest[i].num < e.num && e.addr + e.size < rest[i].addr
    ensures Ordered([e] + rest, end)
  {
  }

  lemma {:induction false} EntriesOrdered(story: seq<byte>, a: nat, bound: nat)
    requires Descending(story, a, bound)
    ensures Ordered(Entries(story, a, bound), End(story, a, bound))
    decreases |story| - a
  {
    if Num(story[a]) != 0 {
      var next := a + 1 + Size(story[a]);
      EntriesOrdered(story, next, Num(story[a]));
      OrderedCons(Entry(Num(story[a]), a + 1, Size(story[a])), Entries(story, next, Num(story[a])),
                  End(story, next, Num(story[a])));
    }
  }

  ghost predicate Lists(es: seq<Entry>, prop: nat) {
    exists i :: 0 <= i < |es| && es[i].num == prop
  }

  /** What looking up `prop` among `es` must give; property 0 is taken to be at the table's end. */
  ghost predicate Locates(es: seq<Entry>, prop: nat, found: Found) {
    && (found.At? <==> prop == 0 || Lists(es, prop))
    && (forall i :: 0 <= i < |es| && es[i].num == prop ==> found == At(es[i].addr, es[i].size))
  }

  /** The walk finds a property exactly when the table has it, with its true place and size; asked
      for property 0 it always stops at the end of the table. */
  lemma {:induction false} FindPropFinds(story: seq<byte>, a: nat, bound: nat, prop: nat)
    requires Descending(story, a, bound)
    ensures var r := FindProp(story, a, prop, false);
      && r.Ok? && Locates(Entries(story, a, bound), prop, r.value)
      && (prop == 0 ==> r.value == At(End(story, a, bound) + 1, Size(story[End(story, a, bound)])))
    decreases |story| - a
  {
    var num := Num(story[a]);
    if num != 0 {
      var next := a + 1 + Size(story[a]);
      FindPropFinds(story, next, num, prop);
      LocatesCons(Entry(num, a + 1, Size(story[a])), Entries(story, next, num), prop, FindProp(story, next, prop, false).value);
    }
  }

  lemma LocatesCons(e: Entry, rest: seq<Entry>, prop: nat, found: Found)
    requires Locates(rest, prop, found) && e.num != 0
    requires forall i :: 0 <= i < |rest| ==> rest[i].num < e.num
    ensures e.num == prop ==> Locates([e] + rest, prop, At(e.addr, e.size))
    ensures e.num < prop ==> Locates([e] + rest, prop, Missing)
    ensures e.num > prop ==> Locates([e] + rest, prop, found)
  {
    var es := [e] + rest;
    assert es[0] == e;
    assert forall i :: 1 <= i < |es| ==> es[i] == rest[i - 1];
    if Lists(rest, prop) {
      var i :| 0 <= i < |rest| && rest[i].num == prop;
      assert es[i + 1].num == prop;
    }
  }

  /** The byte after an entry's data is the header of the next one. */
  lemma {:induction false} NextHeader(story: seq<byte>, a: nat, bound: nat, i: nat)
    requires Descending(story, a, bound) && i < |Entries(story, a, bound)|
    ensures var es := Entries(story, a, bound);
      var next := es[i].addr + es[i].size;
      && next < |story|
      && Num(story[next]) == if i + 1 < |es| then es[i + 1].num else 0
    decreases |story| - a
  {
    var next := a + 1 + Size(story[a]);
    if i > 0 {
      NextHeader(story, next, Num(story[a]), i - 1);
    } else {
      assert Descending(story, next, Num(story[a]));
    }
  }

  // ----- the tables of all objects

  /** Where an object's entries begin. */
  function TableStart(story: seq<byte>, objtab: nat, id: nat): nat
    requires HasObjects(story, objtab, id) && 1 <= id
    requires NameAddress(story, objtab, id) < |story|
  {
    NameAddress(story, objtab, id) + 2 * story[NameAddress(story, objtab, id)] as nat + 1
  }

  /** The property address field of an object's record. */
  function NameAddress(story: seq<byte>, objtab: nat, id: nat): nat
    requires HasObjects(story, objtab, id) && 1 <= id
  {
    Word(story[RecordAddress(objtab, id) + PROPERTIES], story[RecordAddress(objtab, id) + PROPERTIES + 1])
  }

  /** The object has a well-formed property table. */
  ghost predicate HasTable(story: seq<byte>, objtab: nat, id: nat) {
    && 1 <= id && HasObjects(story, objtab, id)
    && NameAddress(story, objtab, id) < |story|
    && Descending(story, TableStart(story, objtab, id), MAX_PROPERTY + 1)
  }

  ghost function Table(story: seq<byte>, objtab: nat, id: nat): seq<Entry>
    requires HasTable(story, objtab, id)
  {
    Entries(story, TableStart(story, objtab, id), MAX_PROPERTY + 1)
  }

  ghost function TableEnd(story: seq<byte>, objtab: nat, id: nat): nat
    requires HasTable(story, objtab, id)
  {
    End(story, TableStart(story, objtab, id), MAX_PROPERTY + 1)
  }

  lemma TableIsWhereFound(story: seq<byte>, objtab: nat, id: nat)
    requires 1 <= id && HasObjects(story, objtab, id) && NameAddress(story, objtab, id) < |story|
    ensures FirstProp(story, objtab, id) == Ok(TableStart(story, objtab, id))
  {
    var obj := RecordAddress(objtab, id);
    assert ObjectPtr(objtab, id) == Ok(obj) && obj + PROPERTIES + 1 < |story|;
    assert WordAt(story, obj + PROPERTIES) == Ok(NameAddress(story, objtab, id));
  }

  // ----- enumeration

  /** Asking for the property after 0, and again and again for the one after the answer. */
  function NthNext(story: seq<byte>, objtab: nat, id: word, k: nat): Outcome<word> {
    if k == 0 then GetNextProp(story, objtab, id, 0)
    else
      var before :- NthNext(story, objtab, id, k - 1);
      GetNextProp(story, objtab, id, before)
  }

  /** Looking up a property of an object: it is found exactly when its table lists it. */
  lemma PropertyFound(story: seq<byte>, objtab: nat, id: nat, prop: word)
    requires HasTable(story, objtab, id)
    ensures var r := GetObjectProperty(story, objtab, id, prop, false);
      && r.Ok? && Locates(Table(story, objtab, id), prop, r.value)
      && (prop == 0 ==> r.value.At? && r.value.addr == TableEnd(story, objtab, id) + 1
                        && r.value.size == Size(story[TableEnd(story, objtab, id)]))
  {
    TableIsWhereFound(story, objtab, id);
    FindPropFinds(story, TableStart(story, objtab, id), MAX_PROPERTY + 1, prop);
  }

  /** The byte before an entry's data is its header. */
  lemma {:induction false} HeaderBefore(story: seq<byte>, a: nat, bound: nat, i: nat)
    requires Descending(story, a, bound) && i < |Entries(story, a, bound)|
    ensures var e := Entries(story, a, bound)[i];
      Num(story[e.addr - 1]) == e.num && Size(story[e.addr - 1]) == e.size
    decreases |story| - a
  {
    if i > 0 {
      HeaderBefore(story, a + 1 + Size(story[a]), Num(story[a]), i - 1);
    }
  }

  /** What the walk finds of a listed property. */
  lemma ListedFound(story: seq<byte>, objtab: nat, id: nat, i: nat, e: Entry)
    requires HasTable(story, objtab, id) && i < |Table(story, objtab, id)| && e == Table(story, objtab, id)[i]
    ensures GetObjectProperty(story, objtab, id, e.num, false) == Ok(At(e.addr, e.size))
  {
    PropertyFound(story, objtab, id, e.num);
  }

  /** And of one the object does not have. */
  lemma MissingFound(story: seq<byte>, objtab: nat, id: nat, prop: word)
    requires HasTable(story, objtab, id) && prop != 0 && !Lists(Table(story, objtab, id), prop)
    ensures GetObjectProperty(story, objtab, id, prop, false) == Ok(Missing)
  {
    PropertyFound(story, objtab, id, prop);
  }

  /** And of property 0: the byte that ends the table is taken for its header. */
  lemma ZeroFound(story: seq<byte>, objtab: nat, id: nat, end: nat)
    requires HasTable(story, objtab, id) && end == TableEnd(story, objtab, id)
    ensures end < |story| && GetObjectProperty(story, objtab, id, 0, false) == Ok(At(end + 1, Size(story[end])))
  {
    PropertyFound(story, objtab, id, 0);
  }

  /** `get_prop_addr` gives the address of a listed property's data, and `get_prop_len` of that address
      its size. */
  lemma AddrThenLen(story: seq<byte>, objtab: nat, id: nat, i: nat, e: Entry)
    requires HasTable(story, objtab, id) && i < |Table(story, objtab, id)| && e == Table(story, objtab, id)[i]
    requires e.addr < 0x1_0000
    ensures GetPropAddr(story, objtab, id, e.num) == Ok(e.addr) && GetPropLen(story, e.addr) == Ok(e.size)
  {
    ListedFound(story, objtab, id, i, e);
    HeaderBefore(story, TableStart(story, objtab, id), MAX_PROPERTY + 1, i);
    AddrAndLen(story, objtab, id, e.num, e.addr, e.size);
  }

  /** Both give 0 for a property the object does not have. */
  lemma AddrOfMissing(story: seq<byte>, objtab: nat, id: nat, prop: word)
    requires HasTable(story, objtab, id) && prop != 0 && !Lists(Table(story, objtab, id), prop)
    ensures GetPropAddr(story, objtab, id, prop) == Ok(0) && GetPropLen(story, 0) == Ok(0)
  {
    MissingFound(story, objtab, id, prop);
  }

  /** For property 0 they give the byte after the table's end and the size in the byte that ends it. */
  lemma AddrOfZero(story: seq<byte>, objtab: nat, id: nat, end: nat)
    requires HasTable(story, objtab, id) && end == TableEnd(story, objtab, id) && end < 0xFFFF
    ensures end < |story|
    ensures GetPropAddr(story, objtab, id, 0) == Ok(end + 1) && GetPropLen(story, end + 1) == Ok(Size(story[end]))
  {
    ZeroFound(story, objtab, id, end);
    AddrAndLen(story, objtab, id, 0, end + 1, Size(story[end]));
  }

  lemma AddrAndLen(story: seq<byte>, objtab: nat, id: word, prop: word, addr: word, size: nat)
    requires GetObjectProperty(story, objtab, id, prop, false) == Ok(At(addr, size)) && 1 <= addr <= |story|
    requires Size(story[addr - 1]) == size
    ensures GetPropAddr(story, objtab, id, prop) == Ok(addr) && GetPropLen(story, addr) == Ok(size)
  {
    var found := GetObjectProperty(story, objtab, id, prop, false);
    assert found.Ok? && found.value == At(addr, size) && ToWord(addr) == addr;
    assert ByteAt(story, addr - 1) == Ok(story[addr - 1]);
  }

  /** `get_next_prop` of 0 is the object's first property, or 0 when it has none. */
  lemma NextPropOfZero(story: seq<byte>, objtab: nat, id: nat)
    requires HasTable(story, objtab, id)
    ensures var es := Table(story, objtab, id);
      GetNextProp(story, objtab, id, 0) == Ok(if es == [] then 0 else es[0].num)
  {
    TableIsWhereFound(story, objtab, id);
    NumberOfFirst(story, objtab, id, TableStart(story, objtab, id));
    assert Num(story[TableStart(story, objtab, id)])
        == if Table(story, objtab, id) == [] then 0 else Table(story, objtab, id)[0].num;
  }

  lemma NumberOfFirst(story: seq<byte>, objtab: nat, id: word, start: nat)
    requires FirstProp(story, objtab, id) == Ok(start) && start < |story|
    ensures GetNextProp(story, objtab, id, 0) == Ok(Num(story[start]))
  {
    assert FindProp(story, start, 0, true) == Ok(At(start + 1, Size(story[start])));
  }

  /** `get_next_prop` of a listed property is the one after it, or 0 after the last. */
  lemma NextPropOfListed(story: seq<byte>, objtab: nat, id: nat, i: nat)
    requires HasTable(story, objtab, id) && i < |Table(story, objtab, id)|
    ensures var es := Table(story, objtab, id);
      GetNextProp(story, objtab, id, es[i].num) == Ok(if i + 1 < |es| then es[i + 1].num else 0)
  {
    var e := Table(story, objtab, id)[i];
    ListedFound(story, objtab, id, i, e);
    NextHeader(story, TableStart(story, objtab, id), MAX_PROPERTY + 1, i);
    NumberAfter(story, objtab, id, e.num, e.addr, e.size);
  }

  lemma NumberAfter(story: seq<byte>, objtab: nat, id: word, prop: word, addr: nat, size: nat)
    requires prop != 0 && GetObjectProperty(story, objtab, id, prop, false) == Ok(At(addr, size)) && addr + size < |story|
    ensures GetNextProp(story, objtab, id, prop) == Ok(Num(story[addr + size]))
  {
  }

  /** `get_next_prop` of a property the object does not have makes the interpreter die. */
  lemma NextPropOfMissing(story: seq<byte>, objtab: nat, id: nat, prop: word)
    requires HasTable(story, objtab, id) && prop != 0
    ensures GetNextProp(story, objtab, id, prop) == Stop(Died) <==> !Lists(Table(story, objtab, id), prop)
  {
    var es := Table(story, objtab, id);
    if Lists(es, prop) {
      var i :| 0 <= i < |es| && es[i].num == prop;
      NextPropOfListed(story, objtab, id, i);
    } else {
      MissingFound(story, objtab, id, prop);
    }
  }

  /** Enumerating from 0 yields every property once, in descending order, and then 0. */
  lemma {:induction false} EnumerationListsTable(story: seq<byte>, objtab: nat, id: nat, k: nat)
    requires HasTable(story, objtab, id) && k <= |Table(story, objtab, id)|
    ensures var es := Table(story, objtab, id);
      NthNext(story, objtab, id, k) == Ok(if k < |es| then es[k].num else 0)
  {
    var es := Table(story, objtab, id);
    if k == 0 {
      NextPropOfZero(story, objtab, id);
    } else {
      EnumerationListsTable(story, objtab, id, k - 1);
      NextPropOfListed(story, objtab, id, k - 1);
    }
  }

  // ----- writing a property

  /** `x` is none of the table's header bytes. */
  ghost predicate NotHeader(story: seq<byte>, a: nat, bound: nat, x: nat)
    requires Descending(story, a, bound)
    decreases |story| - a
  {
    x != a && (Num(story[a]) != 0 ==> NotHeader(story, a + 1 + Size(story[a]), Num(story[a]), x))
  }

  /** Changing a byte that is no header leaves the table as it is. */
  lemma {:induction false} TableKept(story: seq<byte>, a: nat, bound: nat, x: nat, v: byte)
    requires Descending(story, a, bound) && x < |story| && NotHeader(story, a, bound, x)
    ensures Descending(story[x := v], a, bound)
    ensures Entries(story[x := v], a, bound) == Entries(story, a, bound)
    ensures End(story[x := v], a, bound) == End(story, a, bound)
    decreases |story| - a
  {
    if Num(story[a]) != 0 {
      TableKept(story, a + 1 + Size(story[a]), Num(story[a]), x, v);
    }
  }

  lemma {:induction false} OutsideIsNoHeader(story: seq<byte>, a: nat, bound: nat, x: nat)
    requires Descending(story, a, bound) && (x < a || End(story, a, bound) < x)
    ensures NotHeader(story, a, bound, x)
    decreases |story| - a
  {
    if Num(story[a]) != 0 {
      OutsideIsNoHeader(story, a + 1 + Size(story[a]), Num(story[a]), x);
    }
  }

  lemma {:induction false} DataIsNoHeader(story: seq<byte>, a: nat, bound: nat, i: nat, x: nat)
    requires Descending(story, a, bound) && i < |Entries(story, a, bound)|
    requires var e := Entries(story, a, bound)[i]; e.addr <= x < e.addr + e.size
    ensures NotHeader(story, a, bound, x) && x < End(story, a, bound)
    decreases |story| - a
  {
    var next := a + 1 + Size(story[a]);
    if i > 0 {
      DataIsNoHeader(story, next, Num(story[a]), i - 1, x);
    } else {
      OutsideIsNoHeader(story, next, Num(story[a]), x);
    }
  }

  /** Name and property table of an object lie apart from those of another one. */
  ghost predicate TablesApart(story: seq<byte>, objtab: nat, id: nat, jd: nat)
  {
    && HasTable(story, objtab, id) && HasTable(story, objtab, jd)
    && (TableEnd(story, objtab, id) < NameAddress(story, objtab, jd)
        || TableEnd(story, objtab, jd) < NameAddress(story, objtab, id))
  }

  /** An object has a well-formed table, apart from the defaults and the records of objects 1 to n. */
  ghost predicate Placed(story: seq<byte>, objtab: nat, n: nat, id: nat) {
    && HasTable(story, objtab, id)
    && (TableEnd(story, objtab, id) < objtab || objtab + DEFAULTS_BYTES + 9 * n <= NameAddress(story, objtab, id))
  }

  /** All n objects have well-formed tables that overlap neither each other nor the defaults and
      the object records. */
  ghost predicate Tables(story: seq<byte>, objtab: nat, n: nat) {
    && HasObjects(story, objtab, n)
    && (forall id :: 1 <= id <= n ==> Placed(story, objtab, n, id))
    && (forall id, jd :: 1 <= id <= n && 1 <= jd <= n && id != jd ==> TablesApart(story, objtab, id, jd))
  }

  /** The object has the same table in `b` as in `a`, with the same entries at the same places. */
  ghost predicate SameTable(a: seq<byte>, b: seq<byte>, objtab: nat, id: nat) {
    && HasTable(a, objtab, id) && HasTable(b, objtab, id)
    && NameAddress(b, objtab, id) == NameAddress(a, objtab, id)
    && TableEnd(b, objtab, id) == TableEnd(a, objtab, id)
    && b[TableEnd(b, objtab, id)] == a[TableEnd(a, objtab, id)]
    && Table(b, objtab, id) == Table(a, objtab, id)
  }

  ghost predicate SameTables(a: seq<byte>, b: seq<byte>, objtab: nat, n: nat) {
    |a| == |b| && forall id :: 1 <= id <= n ==> SameTable(a, b, objtab, id)
  }

  lemma SameTableStaysPlaced(a: seq<byte>, b: seq<byte>, objtab: nat, n: nat, id: nat)
    requires SameTable(a, b, objtab, id) && Placed(a, objtab, n, id)
    ensures Placed(b, objtab, n, id)
  {
  }

  lemma SameTablesStayApart(a: seq<byte>, b: seq<byte>, objtab: nat, id: nat, jd: nat)
    requires SameTable(a, b, objtab, id) && SameTable(a, b, objtab, jd) && TablesApart(a, objtab, id, jd)
    ensures TablesApart(b, objtab, id, jd)
  {
  }

  lemma SameTablesKeepTables(a: seq<byte>, b: seq<byte>, objtab: nat, n: nat)
    requires Tables(a, objtab, n) && SameTables(a, b, objtab, n)
    ensures Tables(b, objtab, n)
  {
    forall id | 1 <= id <= n ensures Placed(b, objtab, n, id) {
      assert SameTable(a, b, objtab, id) && Placed(a, objtab, n, id);
      SameTableStaysPlaced(a, b, objtab, n, id);
    }
    forall id, jd | 1 <= id <= n && 1 <= jd <= n && id != jd ensures TablesApart(b, objtab, id, jd) {
      assert SameTable(a, b, objtab, id) && SameTable(a, b, objtab, jd) && TablesApart(a, objtab, id, jd);
      SameTablesStayApart(a, b, objtab, id, jd);
    }
  }

  /** A data byte of an entry. */
  predicate InData(e: Entry, x: nat) {
    e.addr <= x < e.addr + e.size
  }

  /** Data lies inside the table, which lies inside the story. */
  lemma DataInTable(story: seq<byte>, objtab: nat, id: nat, i: nat, x: nat)
    requires HasTable(story, objtab, id) && i < |Table(story, objtab, id)| && InData(Table(story, objtab, id)[i], x)
    ensures NameAddress(story, objtab, id) < x < TableEnd(story, objtab, id) < |story|
  {
    DataIsNoHeader(story, TableStart(story, objtab, id), MAX_PROPERTY + 1, i, x);
  }

  /** Writing a data byte of the object's own table keeps that table. */
  lemma OwnWriteKeepsTable(story: seq<byte>, objtab: nat, n: nat, id: nat, i: nat, x: nat, v: byte)
    requires HasObjects(story, objtab, n) && 1 <= id <= n && Placed(story, objtab, n, id)
    requires i < |Table(story, objtab, id)| && InData(Table(story, objtab, id)[i], x)
    ensures x < |story| && SameTable(story, story[x := v], objtab, id)
  {
    DataInTable(story, objtab, id, i, x);
    DataIsNoHeader(story, TableStart(story, objtab, id), MAX_PROPERTY + 1, i, x);
    TableKept(story, TableStart(story, objtab, id), MAX_PROPERTY + 1, x, v);
  }

  /** Writing a byte outside an object's table and outside all records keeps that table. */
  lemma OutsideWriteKeepsTable(story: seq<byte>, objtab: nat, n: nat, jd: nat, x: nat, v: byte)
    requires HasObjects(story, objtab, n) && 1 <= jd <= n && Placed(story, objtab, n, jd) && x < |story|
    requires x < NameAddress(story, objtab, jd) || TableEnd(story, objtab, jd) < x
    requires x < objtab || objtab + DEFAULTS_BYTES + 9 * n <= x
    ensures SameTable(story, story[x := v], objtab, jd)
  {
    OutsideIsNoHeader(story, TableStart(story, objtab, jd), MAX_PROPERTY + 1, x);
    TableKept(story, TableStart(story, objtab, jd), MAX_PROPERTY + 1, x, v);
  }

  lemma DataWriteKeepsTable(story: seq<byte>, objtab: nat, n: nat, id: nat, i: nat, x: nat, v: byte, jd: nat)
    requires Tables(story, objtab, n) && 1 <= id <= n && 1 <= jd <= n
    requires HasTable(story, objtab, id) && i < |Table(story, objtab, id)| && InData(Table(story, objtab, id)[i], x)
    ensures x < |story| && SameTable(story, story[x := v], objtab, jd)
  {
    assert Placed(story, objtab, n, id) && Placed(story, objtab, n, jd);
    if jd == id {
      OwnWriteKeepsTable(story, objtab, n, id, i, x, v);
    } else {
      DataInTable(story, objtab, id, i, x);
      assert TablesApart(story, objtab, id, jd);
      OutsideWriteKeepsTable(story, objtab, n, jd, x, v);
    }
  }

  /** Writing a data byte leaves every object's table as it is. */
  lemma DataWriteKeepsTables(story: seq<byte>, objtab: nat, n: nat, id: nat, i: nat, x: nat, v: byte)
    requires Tables(story, objtab, n) && 1 <= id <= n
    requires HasTable(story, objtab, id) && i < |Table(story, objtab, id)| && InData(Table(story, objtab, id)[i], x)
    ensures x < |story| && Tables(story[x := v], objtab, n) && SameTables(story, story[x := v], objtab, n)
  {
    DataInTable(story, objtab, id, i, x);
    var after := story[x := v];
    forall jd | 1 <= jd <= n ensures SameTable(story, after, objtab, jd) {
      DataWriteKeepsTable(story, objtab, n, id, i, x, v, jd);
    }
    SameTablesKeepTables(story, after, objtab, n);
  }

  /** The value `get_prop` gives for an entry: its byte, or its first two bytes. */
  ghost function Stored(story: seq<byte>, e: Entry): word
    requires 1 <= e.size && e.addr + e.size <= |story|
  {
    if e.size == 1 then story[e.addr] else Word(story[e.addr], story[e.addr + 1])
  }

  /** `get_prop` of a listed property reads its entry. */
  lemma GetPropOfListed(story: seq<byte>, objtab: nat, id: nat, i: nat, e: Entry)
    requires HasTable(story, objtab, id) && i < |Table(story, objtab, id)| && e == Table(story, objtab, id)[i]
    ensures GetProp(story, objtab, id, e.num) == Ok(Stored(story, e))
  {
    ListedFound(story, objtab, id, i, e);
    ReadsStored(story, e);
  }

  lemma ReadsStored(story: seq<byte>, e: Entry)
    requires 1 <= e.size && e.addr + e.size <= |story|
    ensures ReadAt(story, e.addr, e.size) == Ok(Stored(story, e))
  {
  }

  /** `get_prop` of a property the object does not have gives the default. */
  lemma GetPropOfMissing(story: seq<byte>, objtab: nat, id: nat, prop: word)
    requires HasTable(story, objtab, id) && prop != 0 && !Lists(Table(story, objtab, id), prop)
    ensures GetProp(story, objtab, id, prop) == DefaultProp(story, objtab, prop)
  {
    MissingFound(story, objtab, id, prop);
  }

  /** `get_prop` of property 0 reads the bytes after the table's end, as many as the end byte says. */
  lemma GetPropOfZero(story: seq<byte>, objtab: nat, id: nat, end: nat)
    requires HasTable(story, objtab, id) && end == TableEnd(story, objtab, id)
    ensures end < |story| && GetProp(story, objtab, id, 0) == ReadAt(story, end + 1, Size(story[end]))
  {
    ZeroFound(story, objtab, id, end);
  }

  /** The story with a value stored in an entry's data. */
  function StoreIn(story: seq<byte>, e: Entry, value: word): seq<byte>
    requires 1 <= e.size && e.addr + e.size <= |story|
  {
    if e.size == 1 then story[e.addr := Lo(value)] else story[e.addr := Hi(value)][e.addr + 1 := Lo(value)]
  }

  lemma PutsStored(story: seq<byte>, e: Entry, value: word)
    requires 1 <= e.size && e.addr + e.size <= |story|
    ensures PutAt(story, e.addr, e.size, value) == Ok(StoreIn(story, e, value))
  {
  }

  /** `put_prop` makes the interpreter die exactly on the properties the object does not have, 0 not
      among them. */
  lemma PutPropOfMissing(story: seq<byte>, objtab: nat, id: nat, prop: word, value: word)
    requires HasTable(story, objtab, id)
    ensures PutProp(story, objtab, id, prop, value) == Stop(Died) <==> prop != 0 && !Lists(Table(story, objtab, id), prop)
  {
    var es := Table(story, objtab, id);
    if prop == 0 {
      ZeroFound(story, objtab, id, TableEnd(story, objtab, id));
    } else if Lists(es, prop) {
      var i :| 0 <= i < |es| && es[i].num == prop;
      PutPropWrites(story, objtab, id, i, es[i], value);
    } else {
      MissingFound(story, objtab, id, prop);
    }
  }

  /** `put_prop` of property 0 overwrites what lies after the table: the byte after its end, or both
      bytes after it when the end byte says so. */
  lemma PutPropOfZero(story: seq<byte>, objtab: nat, id: nat, value: word, end: nat)
    requires HasTable(story, objtab, id) && end == TableEnd(story, objtab, id)
    ensures end < |story|
    ensures Size(story[end]) == 1 && end + 1 < |story| ==>
              PutProp(story, objtab, id, 0, value) == Ok(story[end + 1 := Lo(value)])
    ensures Size(story[end]) > 1 && end + 2 < |story| ==>
              PutProp(story, objtab, id, 0, value) == Ok(story[end + 1 := Hi(value)][end + 2 := Lo(value)])
  {
    ZeroFound(story, objtab, id, end);
  }

  /** `put_prop` on a property the object has stores the value in its data. */
  lemma PutPropWrites(story: seq<byte>, objtab: nat, id: nat, i: nat, e: Entry, value: word)
    requires HasTable(story, objtab, id) && i < |Table(story, objtab, id)| && e == Table(story, objtab, id)[i]
    ensures PutProp(story, objtab, id, e.num, value) == Ok(StoreIn(story, e, value))
  {
    ListedFound(story, objtab, id, i, e);
    PutsStored(story, e, value);
  }

  /** `put_prop` keeps every object's table, entry for entry. */
  lemma StoreKeepsTables(story: seq<byte>, objtab: nat, n: nat, id: nat, i: nat, e: Entry, value: word)
    requires Tables(story, objtab, n) && 1 <= id <= n
    requires HasTable(story, objtab, id) && i < |Table(story, objtab, id)| && e == Table(story, objtab, id)[i]
    ensures Tables(StoreIn(story, e, value), objtab, n) && SameTables(story, StoreIn(story, e, value), objtab, n)
  {
    if e.size == 1 {
      DataWriteKeepsTables(story, objtab, n, id, i, e.addr, Lo(value));
    } else {
      var hi := story[e.addr := Hi(value)];
      DataWriteKeepsTables(story, objtab, n, id, i, e.addr, Hi(value));
      assert SameTable(story, hi, objtab, id);
      DataWriteKeepsTables(hi, objtab, n, id, i, e.addr + 1, Lo(value));
      SameTablesTwice(story, hi, StoreIn(story, e, value), objtab, n);
    }
  }

  lemma SameTablesTwice(a: seq<byte>, b: seq<byte>, c: seq<byte>, objtab: nat, n: nat)
    requires SameTables(a, b, objtab, n) && SameTables(b, c, objtab, n)
    ensures SameTables(a, c, objtab, n)
  {
    forall id | 1 <= id <= n ensures SameTable(a, c, objtab, id) {
      assert SameTable(a, b, objtab, id) && SameTable(b, c, objtab, id);
    }
  }

  /** The data of two entries, in one table or two, never shares a byte. */
  lemma DataApart(story: seq<byte>, objtab: nat, n: nat, id: nat, i: nat, x: nat, jd: nat, j: nat)
    requires Tables(story, objtab, n) && 1 <= id <= n && 1 <= jd <= n && (id != jd || i != j)
    requires HasTable(story, objtab, id) && i < |Table(story, objtab, id)| && InData(Table(story, objtab, id)[i], x)
    requires HasTable(story, objtab, jd) && j < |Table(story, objtab, jd)|
    ensures !InData(Table(story, objtab, jd)[j], x)
  {
    if InData(Table(story, objtab, jd)[j], x) {
      if id == jd {
        EntriesOrdered(story, TableStart(story, objtab, id), MAX_PROPERTY + 1);
      } else {
        assert TablesApart(story, objtab, id, jd);
        DataInTable(story, objtab, id, i, x);
        DataInTable(story, objtab, jd, j, x);
      }
    }
  }

  /** Other entries' data, in the same table or in another one, is untouched. */
  lemma StoreElsewhere(story: seq<byte>, objtab: nat, n: nat, id: nat, i: nat, e: Entry, value: word, jd: nat, j: nat, f: Entry)
    requires Tables(story, objtab, n) && 1 <= id <= n && 1 <= jd <= n && (id != jd || i != j)
    requires HasTable(story, objtab, id) && i < |Table(story, objtab, id)| && e == Table(story, objtab, id)[i]
    requires HasTable(story, objtab, jd) && j < |Table(story, objtab, jd)| && f == Table(story, objtab, jd)[j]
    ensures Stored(StoreIn(story, e, value), f) == Stored(story, f)
  {
    DataApart(story, objtab, n, id, i, e.addr, jd, j);
    if e.size > 1 {
      DataApart(story, objtab, n, id, i, e.addr + 1, jd, j);
    }
    StoredApart(story, e, value, f);
  }

  lemma StoredApart(story: seq<byte>, e: Entry, value: word, f: Entry)
    requires 1 <= e.size && e.addr + e.size <= |story| && 1 <= f.size && f.addr + f.size <= |story|
    requires !InData(f, e.addr) && (e.size > 1 ==> !InData(f, e.addr + 1))
    ensures Stored(StoreIn(story, e, value), f) == Stored(story, f)
  {
  }

  /** Defaults are untouched. */
  lemma StoreKeepsDefaults(story: seq<byte>, objtab: nat, n: nat, id: nat, i: nat, e: Entry, value: word, prop: word)
    requires Tables(story, objtab, n) && 1 <= id <= n && prop != 0
    requires HasTable(story, objtab, id) && i < |Table(story, objtab, id)| && e == Table(story, objtab, id)[i]
    ensures DefaultProp(StoreIn(story, e, value), objtab, prop) == DefaultProp(story, objtab, prop)
  {
    assert Placed(story, objtab, n, id);
    DataInTable(story, objtab, id, i, e.addr);
    if e.size > 1 {
      DataInTable(story, objtab, id, i, e.addr + 1);
    }
    DefaultsApart(story, e, value, objtab, prop);
  }

  lemma DefaultsApart(story: seq<byte>, e: Entry, value: word, objtab: nat, prop: word)
    requires 1 <= e.size && e.addr + e.size <= |story| && prop != 0
    requires !(objtab <= e.addr < objtab + DEFAULTS_BYTES)
    requires e.size > 1 ==> !(objtab <= e.addr + 1 < objtab + DEFAULTS_BYTES)
    ensures DefaultProp(StoreIn(story, e, value), objtab, prop) == DefaultProp(story, objtab, prop)
  {
  }

  lemma StoredBack(story: seq<byte>, e: Entry, value: word)
    requires 1 <= e.size && e.addr + e.size <= |story|
    ensures Stored(StoreIn(story, e, value), e) == if e.size == 1 then Lo(value) else value
  {
    assert value == Word(Hi(value), Lo(value));
  }

  /** After a `put_prop` to a listed property, `get_prop` of it gives the value (its low byte when the
      property has one); all tables are still well-formed, with the same entries. */
  lemma PutThenGet(story: seq<byte>, objtab: nat, n: nat, id: nat, i: nat, e: Entry, value: word)
    requires Tables(story, objtab, n) && 1 <= id <= n
    requires HasTable(story, objtab, id) && i < |Table(story, objtab, id)| && e == Table(story, objtab, id)[i]
    ensures var r := PutProp(story, objtab, id, e.num, value);
      && r.Ok? && Tables(r.value, objtab, n) && SameTables(story, r.value, objtab, n)
      && GetProp(r.value, objtab, id, e.num) == Ok(if e.size == 1 then Lo(value) else value)
  {
    var after := StoreIn(story, e, value);
    PutPropWrites(story, objtab, id, i, e, value);
    StoreKeepsTables(story, objtab, n, id, i, e, value);
    assert SameTable(story, after, objtab, id);
    GetPropOfListed(after, objtab, id, i, e);
    StoredBack(story, e, value);
  }

  /** Every other property of every object, listed or not, reads as before; only property 0 reads
      whatever lies after the table's end by then. */
  lemma PutThenGetOther(story: seq<byte>, objtab: nat, n: nat, id: nat, i: nat, e: Entry, value: word, jd: nat, prop: word)
    requires Tables(story, objtab, n) && 1 <= id <= n && 1 <= jd <= n && (jd != id || prop != e.num)
    requires HasTable(story, objtab, id) && i < |Table(story, objtab, id)| && e == Table(story, objtab, id)[i]
    requires HasTable(story, objtab, jd)
    ensures var r := PutProp(story, objtab, id, e.num, value);
      var end := TableEnd(story, objtab, jd);
      && r.Ok? && end < |story|
      && GetProp(r.value, objtab, jd, prop) ==
         if prop == 0 then ReadAt(r.value, end + 1, Size(story[end])) else GetProp(story, objtab, jd, prop)
  {
    var after := StoreIn(story, e, value);
    PutPropWrites(story, objtab, id, i, e, value);
    StoreKeepsTables(story, objtab, n, id, i, e, value);
    assert SameTable(story, after, objtab, jd);
    var fs := Table(story, objtab, jd);
    if prop == 0 {
      GetPropOfZero(after, objtab, jd, TableEnd(after, objtab, jd));
    } else if Lists(fs, prop) {
      var j :| 0 <= j < |fs| && fs[j].num == prop;
      GetPropOfListed(story, objtab, jd, j, fs[j]);
      GetPropOfListed(after, objtab, jd, j, fs[j]);
      StoreElsewhere(story, objtab, n, id, i, e, value, jd, j, fs[j]);
    } else {
      GetPropOfMissing(story, objtab, jd, prop);
      GetPropOfMissing(after, objtab, jd, prop);
      StoreKeepsDefaults(story, objtab, n, id, i, e, value, prop);
    }
  }
}
