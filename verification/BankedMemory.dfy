/** The memory of a 6502: 64 KB of addresses, of which two windows show one of 256 banks each, all kept
    in a single allocation. */
module BankedMemory {
  import opened Bytes
  import opened Widths

  type address = word

  const HIMEM1_START := 0xA000
  const HIMEM2_START := 0xC000
  const TOP_START := 0xF000

  const HIMEM1_START_IN_MEM := 0xA000
  const HIMEM2_START_IN_MEM := 0xA000 + 0x20_0000
  const MEM_SIZE := 0xA000 + 0x20_0000 + 0xC0_0000

  /** A byte of memory, by the name a program would give it. */
  datatype Cell = Low(a: address) | Bank1(page: byte, a: address) | Bank2(page: byte, a: address)

  predicate Exists(c: Cell) {
    match c
    case Low(a) => a < HIMEM1_START
    case Bank1(_, a) => HIMEM1_START <= a < HIMEM2_START
    case Bank2(_, a) => HIMEM2_START <= a
  }

  /** Where the allocation keeps a cell. */
  function Place(c: Cell): int
    requires Exists(c)
  {
    match c
    case Low(a) => a
    case Bank1(page, a) => HIMEM1_START_IN_MEM + (page * 0x2000 - HIMEM1_START) + a
    case Bank2(page, a) => HIMEM2_START_IN_MEM + (page * 0x4000 - HIMEM2_START) + a
  }

  /** Every cell has a place of its own in the allocation. */
  lemma PlacesAreApart(c: Cell, d: Cell)
    requires Exists(c) && Exists(d)
    ensures 0 <= Place(c) < MEM_SIZE
    ensures Place(c) == Place(d) <==> c == d
  {
  }

  /** The cells, and which bank each window shows. */
  datatype Banks = Banks(cells: imap<Cell, byte>, page1: byte, page2: byte)

  ghost predicate Complete(b: Banks) {
    forall c :: c in b.cells <==> Exists(c)
  }

  /** The cell an address shows. */
  function Shown(a: address, page1: byte, page2: byte): (c: Cell)
    ensures Exists(c) && c.a == a
  {
    if a < HIMEM1_START then Low(a) else if a < HIMEM2_START then Bank1(page1, a) else Bank2(page2, a)
  }

  /** Addresses at the top that are written to bank 0 whatever bank is shown. */
  predicate Pinned(a: address) {
    a == 0xFFE0 || a == 0xFFE1 || a == 0xFFF8 || a == 0xFFFA || a == 0xFFFB || a == 0xFFFE || a == 0xFFFF
  }

  /** The cell a write goes to, and the cell a read comes from. */
  function Written(a: address, page1: byte, page2: byte): (c: Cell)
    ensures Exists(c)
  {
    if Pinned(a) then Bank2(0, a) else Shown(a, page1, page2)
  }

  function Fetched(a: address, page1: byte, page2: byte): (c: Cell)
    ensures Exists(c)
  {
    if a >= TOP_START then Bank2(0, a) else Shown(a, page1, page2)
  }

  /** A store at any address but 0xFFF9. */
  ghost function Write(b: Banks, a: address, v: byte): (b': Banks)
    requires Complete(b)
    ensures Complete(b')
  {
    Banks(b.cells[Written(a, b.page1, b.page2) := v],
          if a == 0xFFE0 then v else b.page1, if a == 0xFFE1 then v else b.page2)
  }

  ghost function Read(b: Banks, a: address): byte
    requires Complete(b)
  {
    b.cells[Fetched(a, b.page1, b.page2)]
  }

  // ----- calls of the C library

  /** What a library call answers: the memory as the call leaves it, its result and its error code. */
  datatype Reply = Reply(left: Banks, result: byte, error: byte)

  /** A store to 0xFFF9 first completes the pointer to the call's arguments in bank 0, ... */
  ghost function BeginCall(b: Banks, v: byte): (b': Banks)
    requires Complete(b)
    ensures Complete(b')
  {
    b.(cells := b.cells[Bank2(0, 0xFFF9) := v])
  }

  /** ... and once the call is back stores its result and its error code over the pointer. */
  ghost function EndCall(left: Banks, result: byte, error: byte): (b': Banks)
    requires Complete(left)
    ensures Complete(b')
  {
    left.(cells := left.cells[Bank2(0, 0xFFF8) := result][Bank2(0, 0xFFF9) := error])
  }

  // ----- runs

  /** A store; `reply` is the library's when the address is 0xFFF9. */
  datatype Store = Store(a: address, v: byte, reply: Reply)

  ghost predicate Answered(stores: seq<Store>) {
    forall i :: 0 <= i < |stores| && stores[i].a == 0xFFF9 ==> Complete(stores[i].reply.left)
  }

  ghost function Apply(b: Banks, s: Store): (b': Banks)
    requires Complete(b) && (s.a == 0xFFF9 ==> Complete(s.reply.left))
    ensures Complete(b')
  {
    if s.a == 0xFFF9 then EndCall(s.reply.left, s.reply.result, s.reply.error) else Write(b, s.a, s.v)
  }

  ghost function Run(b: Banks, stores: seq<Store>): (b': Banks)
    requires Complete(b) && Answered(stores)
    ensures Complete(b')
  {
    if stores == [] then b
    else
      var last := |stores| - 1;
      Apply(Run(b, stores[..last]), stores[last])
  }

  /** The page of a window that was last chosen: by a store to its register, or by a library call. */
  ghost function LastPage(stores: seq<Store>, register: address, page: byte): byte {
    if stores == [] then page
    else
      var s := stores[|stores| - 1];
      if s.a == 0xFFF9 then if register == 0xFFE0 then s.reply.left.page1 else s.reply.left.page2
      else if s.a == register then s.v
      else LastPage(stores[..|stores| - 1], register, page)
  }

  /** The cell that store number i of a run goes to. */
  ghost function Target(stores: seq<Store>, page1: byte, page2: byte, i: nat): Cell
    requires i < |stores|
  {
    Written(stores[i].a, LastPage(stores[..i], 0xFFE0, page1), LastPage(stores[..i], 0xFFE1, page2))
  }

  /** The value last stored in a cell: the bank shown at the time decides, and a library call leaves what
      it leaves, but for its result and error code. */
  ghost function LastIn(stores: seq<Store>, page1: byte, page2: byte, c: Cell, v: byte): byte
    requires Answered(stores) && Exists(c)
  {
    if stores == [] then v
    else
      var last := |stores| - 1;
      var s := stores[last];
      if s.a == 0xFFF9 then
        if c == Bank2(0, 0xFFF8) then s.reply.result
        else if c == Bank2(0, 0xFFF9) then s.reply.error
        else s.reply.left.cells[c]
      else if Target(stores, page1, page2, last) == c then s.v
      else LastIn(stores[..last], page1, page2, c, v)
  }

  /** Over any run, the pages shown are those last chosen, and every cell holds the value last stored
      in it. */
  lemma {:induction false} RunKeepsLast(b: Banks, stores: seq<Store>, c: Cell)
    requires Complete(b) && Answered(stores) && Exists(c)
    ensures Run(b, stores).page1 == LastPage(stores, 0xFFE0, b.page1)
    ensures Run(b, stores).page2 == LastPage(stores, 0xFFE1, b.page2)
    ensures Run(b, stores).cells[c] == LastIn(stores, b.page1, b.page2, c, b.cells[c])
  {
    if stores != [] {
      RunKeepsLast(b, stores[..|stores| - 1], c);
    }
  }

  /** A read after any run returns the value last stored in the cell read, which below the top is the
      cell of that address in the bank shown now. */
  lemma ReadsLastStored(b: Banks, stores: seq<Store>, a: address)
    requires Complete(b) && Answered(stores)
    ensures var now := Run(b, stores);
      var c := if a < TOP_START then Shown(a, now.page1, now.page2) else Bank2(0, a);
      Exists(c) && Read(now, a) == LastIn(stores, b.page1, b.page2, c, b.cells[c])
  {
    var now := Run(b, stores);
    RunKeepsLast(b, stores, Fetched(a, now.page1, now.page2));
  }

  /** What is written can be read back at once, except at the top, where reads come from bank 0 while
      most writes go to the bank shown, and where 0xFFF9 reads as the error code of a library call. */
  lemma ReadsBackUnlessAtTop(b: Banks, s: Store)
    requires Complete(b) && (s.a == 0xFFF9 ==> Complete(s.reply.left))
    ensures Read(Apply(b, s), s.a) == s.v
       <==> if s.a == 0xFFF9 then s.reply.error == s.v
            else s.a < TOP_START || Pinned(s.a) || b.page2 == 0 || b.cells[Bank2(0, s.a)] == s.v
  {
    var after := Apply(b, s);
    assert Exists(Bank2(0, s.a)) <==> s.a >= HIMEM2_START;
    if s.a < TOP_START {
      assert Fetched(s.a, after.page1, after.page2) == Written(s.a, b.page1, b.page2);
    } else {
      assert Fetched(s.a, after.page1, after.page2) == Bank2(0, s.a);
    }
  }

  // ----- the program

  class Memory {
    var mem: array<byte>
    var himem1Index: array<i32>
    var himem2Index: array<i32>
    var himem1Page: byte
    var himem2Page: byte

    ghost predicate Valid()
      reads this, mem, himem1Index, himem2Index
    {
      && mem.Length == MEM_SIZE && himem1Index.Length == 256 && himem2Index.Length == 256
      && mem as object != himem1Index as object && mem as object != himem2Index as object
      && (forall g :: 0 <= g < 256 ==> himem1Index[g] == g * 0x2000 - HIMEM1_START)
      && (forall g :: 0 <= g < 256 ==> himem2Index[g] == g * 0x4000 - HIMEM2_START)
    }

    /** What the allocation stands for. */
    ghost function Now(): (b: Banks)
      reads this, mem, himem1Index, himem2Index
      requires Valid()
      ensures Complete(b)
    {
      Banks(imap c | Exists(c) :: mem[Place(c)], himem1Page, himem2Page)
    }

    constructor ()
      ensures Valid() && fresh(mem) && Now().page1 == 0 && Now().page2 == 0
    {
      var index1, index2 := new i32[256], new i32[256];
      var g := 0;
      while g < 256
        invariant 0 <= g <= 256
        invariant forall k :: 0 <= k < g ==> index1[k] == k * 0x2000 - HIMEM1_START
        invariant forall k :: 0 <= k < g ==> index2[k] == k * 0x4000 - HIMEM2_START
      {
        index1[g] := g * 0x2000 - HIMEM1_START;
        index2[g] := g * 0x4000 - HIMEM2_START;
        g := g + 1;
      }
      mem := new byte[MEM_SIZE];
      himem1Index, himem2Index := index1, index2;
      himem1Page, himem2Page := 0, 0;
    }

    /** Writing a cell's place writes that cell alone. */
    method StoreAt(i: nat, val: byte, ghost c: Cell)
      requires Valid() && Exists(c) && i == Place(c) < MEM_SIZE
      modifies mem
      ensures Valid() && Now() == old(Now()).(cells := old(Now()).cells[c := val])
    {
      forall d | Exists(d) ensures Place(d) == i <==> d == c {
        PlacesAreApart(c, d);
      }
      mem[i] := val;
      assert Now().cells == old(Now()).cells[c := val];
    }

    method MemWrite(a: address, val: byte)
      requires Valid() && a != 0xFFF9
      modifies this`himem1Page, this`himem2Page, mem
      ensures Valid() && Now() == Write(old(Now()), a, val)
    {
      var region := a / 0x1000;
      if region <= 9 {
        StoreAt(a, val, Low(a));
      } else if region <= 0xB {
        StoreAt(HIMEM1_START_IN_MEM + (himem1Index[himem1Page] + a), val, Bank1(himem1Page, a));
      } else if region <= 0xE {
        StoreAt(HIMEM2_START_IN_MEM + (himem2Index[himem2Page] + a), val, Bank2(himem2Page, a));
      } else {
        WriteTop(a, val);
      }
    }

    /** The top page: some addresses are pinned to bank 0, two of them switch pages. */
    method WriteTop(a: address, val: byte)
      requires Valid() && a >= TOP_START && a != 0xFFF9
      modifies this`himem1Page, this`himem2Page, mem
      ensures Valid() && Now() == Write(old(Now()), a, val)
    {
      if a == 0xFFF8 || a == 0xFFFA || a == 0xFFFB || a == 0xFFFE || a == 0xFFFF {
        StoreAt(HIMEM2_START_IN_MEM + (himem2Index[0] + a), val, Bank2(0, a));
      } else if a == 0xFFE0 {
        StoreAt(HIMEM2_START_IN_MEM + (himem2Index[0] + a), val, Bank2(0, a));
        himem1Page := val;
      } else if a == 0xFFE1 {
        StoreAt(HIMEM2_START_IN_MEM + (himem2Index[0] + a), val, Bank2(0, a));
        himem2Page := val;
      } else {
        StoreAt(HIMEM2_START_IN_MEM + (himem2Index[himem2Page] + a), val, Bank2(himem2Page, a));
      }
    }

    /** The first half of a store to 0xFFF9, up to the library call. */
    method BeginLibraryCall(val: byte)
      requires Valid()
      modifies mem
      ensures Valid() && Now() == BeginCall(old(Now()), val)
    {
      StoreAt(HIMEM2_START_IN_MEM + (himem2Index[0] + 0xFFF9), val, Bank2(0, 0xFFF9));
    }

    /** The second half, after the call. */
    method EndLibraryCall(ret: byte, errno: byte)
      requires Valid()
      modifies mem
      ensures Valid() && Now() == EndCall(old(Now()), ret, errno)
    {
      StoreAt(HIMEM2_START_IN_MEM + (himem2Index[0] + 0xFFF8), ret, Bank2(0, 0xFFF8));
      StoreAt(HIMEM2_START_IN_MEM + (himem2Index[0] + 0xFFF9), errno, Bank2(0, 0xFFF9));
    }

    method MemRead(a: address) returns (val: byte)
      requires Valid()
      ensures val == Read(Now(), a)
    {
      var region := a / 0x1000;
      if region <= 9 {
        PlacesAreApart(Low(a), Low(a));
        val := mem[a];
      } else if region <= 0xB {
        PlacesAreApart(Bank1(himem1Page, a), Low(0));
        val := mem[HIMEM1_START_IN_MEM + (himem1Index[himem1Page] + a)];
      } else {
        var page := if region <= 0xE then himem2Page else 0;
        PlacesAreApart(Bank2(page, a), Low(0));
        val := mem[HIMEM2_START_IN_MEM + (himem2Index[page] + a)];
      }
    }

    /** The index in the allocation that the pointer for an address points to. */
    method MemBase(a: address) returns (i: nat)
      requires Valid()
      ensures i == Place(Shown(a, himem1Page, himem2Page)) && i < mem.Length
      ensures mem[i] == Now().cells[Shown(a, himem1Page, himem2Page)]
    {
      PlacesAreApart(Shown(a, himem1Page, himem2Page), Low(0));
      var region := a / 0x1000;
      if region <= 9 {
        i := a;
      } else if region <= 0xB {
        i := HIMEM1_START_IN_MEM + (himem1Index[himem1Page] + a);
      } else {
        i := HIMEM2_START_IN_MEM + (himem2Index[himem2Page] + a);
      }
    }
  }

  /** The pointer for an address names the cell a read of it fetches, except at the top while a bank
      other than 0 is shown. */
  lemma BaseNamesCellRead(b: Banks, a: address)
    ensures Place(Shown(a, b.page1, b.page2)) == Place(Fetched(a, b.page1, b.page2)) <==> a < TOP_START || b.page2 == 0
  {
    PlacesAreApart(Shown(a, b.page1, b.page2), Fetched(a, b.page1, b.page2));
  }
}
