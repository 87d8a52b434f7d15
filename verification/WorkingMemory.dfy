/** Bounded, task-isolated working memory with oldest-first eviction. */
module WorkingMemory {
  import opened Common

  // ---------------------------------------------------------------- data ---

  datatype Section = Observation | Failure | Hypothesis | Decision

  /** "obs-0001" is (Observation, 1): the text form is injective. */
  datatype ItemId = ItemId(section: Section, number: nat)

  datatype Item = Item(id: ItemId, text: string, pinned: bool)

  datatype Slot = Goal | Subgoal | PlanDigest | CriticFeedback | ExecutionContext | Retrieved

  const SLOTS := [Goal, Subgoal, PlanDigest, CriticFeedback, ExecutionContext, Retrieved]

  function TextIn(texts: map<Slot, string>, slot: Slot): string { if slot in texts then texts[slot] else "" }

  function CharsIn(texts: map<Slot, string>, slots: seq<Slot>): nat {
    if slots == [] then 0 else |TextIn(texts, slots[0])| + CharsIn(texts, slots[1..])
  }

  /** A slot that was never set reads as the empty text. */
  datatype Task = Task(slots: map<Slot, string>, items: seq<Item>, nextSeq: nat)
  {
    function SlotChars(): nat { CharsIn(slots, SLOTS) }
    function Chars(): nat { SlotChars() + Size(items) }
  }

  const NEW_TASK := Task(map[], [], 1)

  datatype Bounds = Bounds(maxItems: nat, maxChars: nat)

  type Tasks = map<string, Task>

  function Size(items: seq<Item>): nat { if items == [] then 0 else |items[0].text| + Size(items[1..]) }

  function Unpinned(items: seq<Item>): seq<Item> {
    if items == [] then [] else if items[0].pinned then Unpinned(items[1..]) else [items[0]] + Unpinned(items[1..])
  }

  function Pinned(items: seq<Item>): seq<Item> {
    if items == [] then [] else if items[0].pinned then [items[0]] + Pinned(items[1..]) else Pinned(items[1..])
  }

  // ------------------------------------------------------------ eviction ---

  /** How many unpinned items must go, oldest first, when that many items and
      characters are over; `None` when all of them are not enough. */
  function Evictions(items: seq<Item>, itemsOver: int, charsOver: int): (n: Option<nat>)
    ensures n.Some? ==> n.value <= |Unpinned(items)|
  {
    if itemsOver <= 0 && charsOver <= 0 then Some(0)
    else if items == [] then None
    else if items[0].pinned then Evictions(items[1..], itemsOver, charsOver)
    else match Evictions(items[1..], itemsOver - 1, charsOver - |items[0].text|)
      case None => None
      case Some(n) => Some(n + 1)
  }

  function ItemsOver(b: Bounds, t: Task, moreItems: nat): int { |t.items| + moreItems - b.maxItems }

  function CharsOver(b: Bounds, t: Task, moreChars: int): int { t.Chars() + moreChars - b.maxChars }

  function Victims(b: Bounds, t: Task, moreChars: int, moreItems: nat): Option<seq<Item>> {
    match Evictions(t.items, ItemsOver(b, t, moreItems), CharsOver(b, t, moreChars))
    case None => None
    case Some(n) => Some(Unpinned(t.items)[..n])
  }

  /** Evicting the `k` oldest unpinned items makes room. */
  predicate Enough(items: seq<Item>, itemsOver: int, charsOver: int, k: nat)
    requires k <= |Unpinned(items)|
  {
    itemsOver <= k && charsOver <= Size(Unpinned(items)[..k])
  }

  /** The plan as it is collected, from what is left to look at on. */
  function PlanFrom(items: seq<Item>, itemsOver: int, charsOver: int, victims: seq<Item>): Option<seq<Item>> {
    if itemsOver <= 0 && charsOver <= 0 then Some(victims)
    else if items == [] then None
    else if items[0].pinned then PlanFrom(items[1..], itemsOver, charsOver, victims)
    else PlanFrom(items[1..], itemsOver - 1, charsOver - |items[0].text|, victims + [items[0]])
  }

  lemma {:induction false} PlanMeaning(items: seq<Item>, itemsOver: int, charsOver: int, victims: seq<Item>)
    ensures PlanFrom(items, itemsOver, charsOver, victims) ==
      match Evictions(items, itemsOver, charsOver) case None => None case Some(n) => Some(victims + Unpinned(items)[..n])
  {
    if itemsOver <= 0 && charsOver <= 0 {
      assert victims + Unpinned(items)[..0] == victims;
    } else if items != [] {
      var head, rest := items[0], items[1..];
      if head.pinned {
        PlanMeaning(rest, itemsOver, charsOver, victims);
      } else {
        PlanMeaning(rest, itemsOver - 1, charsOver - |head.text|, victims + [head]);
        var n := Evictions(rest, itemsOver - 1, charsOver - |head.text|);
        if n.Some? { OneMoreVictim(victims, head, Unpinned(rest), n.value); }
      }
    }
  }

  lemma OneMoreVictim(victims: seq<Item>, x: Item, rest: seq<Item>, n: nat)
    requires n <= |rest|
    ensures victims + ([x] + rest)[..n + 1] == (victims + [x]) + rest[..n]
  {
  }

  lemma PlanIsVictims(b: Bounds, t: Task, moreChars: int, moreItems: nat)
    ensures PlanFrom(t.items, ItemsOver(b, t, moreItems), CharsOver(b, t, moreChars), []) == Victims(b, t, moreChars, moreItems)
  {
    PlanMeaning(t.items, ItemsOver(b, t, moreItems), CharsOver(b, t, moreChars), []);
    if Victims(b, t, moreChars, moreItems).Some? {
      assert [] + Victims(b, t, moreChars, moreItems).value == Victims(b, t, moreChars, moreItems).value;
    }
  }

  lemma PlanAt(items: seq<Item>, i: nat, itemsOver: int, charsOver: int, victims: seq<Item>)
    requires i < |items| && !(itemsOver <= 0 && charsOver <= 0)
    ensures PlanFrom(items[i..], itemsOver, charsOver, victims) ==
      if items[i].pinned then PlanFrom(items[i + 1..], itemsOver, charsOver, victims)
      else PlanFrom(items[i + 1..], itemsOver - 1, charsOver - |items[i].text|, victims + [items[i]])
  {
    assert items[i..][1..] == items[i + 1..];
  }

  lemma {:induction false} EvictionsAreLeast(items: seq<Item>, itemsOver: int, charsOver: int, k: nat)
    requires k <= |Unpinned(items)|
    ensures var r := Evictions(items, itemsOver, charsOver);
      && (r == Some(k) ==> Enough(items, itemsOver, charsOver, k))
      && (r.None? || k < r.value ==> !Enough(items, itemsOver, charsOver, k))
  {
    if k == 0 { assert Unpinned(items)[..k] == []; }
    if !(itemsOver <= 0 && charsOver <= 0) && items != [] {
      var head, rest := items[0], items[1..];
      if head.pinned {
        EvictionsAreLeast(rest, itemsOver, charsOver, k);
      } else if k > 0 {
        EvictionsAreLeast(rest, itemsOver - 1, charsOver - |head.text|, k - 1);
        assert Unpinned(items)[..k][1..] == Unpinned(rest)[..k - 1];
      }
    }
  }

  /** More evictions never hurt, so evicting succeeds exactly when evicting every
      unpinned item would. */
  lemma {:induction false} EvictionsExactly(items: seq<Item>, itemsOver: int, charsOver: int)
    ensures Evictions(items, itemsOver, charsOver).Some? <==>
      itemsOver <= |Unpinned(items)| && charsOver <= Size(Unpinned(items))
  {
    if !(itemsOver <= 0 && charsOver <= 0) && items != [] {
      var head, rest := items[0], items[1..];
      if head.pinned {
        EvictionsExactly(rest, itemsOver, charsOver);
      } else {
        EvictionsExactly(rest, itemsOver - 1, charsOver - |head.text|);
        assert Unpinned(items)[1..] == Unpinned(rest);
      }
    }
  }

  /** The items without their `k` oldest unpinned ones. */
  function Spare(items: seq<Item>, k: nat): seq<Item> {
    if items == [] then []
    else if items[0].pinned then [items[0]] + Spare(items[1..], k)
    else if k > 0 then Spare(items[1..], k - 1)
    else items
  }

  /** `list.remove`: the first equal item goes. */
  function RemoveFirst(items: seq<Item>, v: Item): seq<Item> {
    if items == [] then [] else if items[0] == v then items[1..] else [items[0]] + RemoveFirst(items[1..], v)
  }

  function RemoveAll(items: seq<Item>, vs: seq<Item>): seq<Item>
    decreases |vs|
  {
    if vs == [] then items else RemoveAll(RemoveFirst(items, vs[0]), vs[1..])
  }

  lemma {:induction false} SplitSize(items: seq<Item>)
    ensures Size(items) == Size(Pinned(items)) + Size(Unpinned(items))
    ensures |items| == |Pinned(items)| + |Unpinned(items)|
  {
    if items != [] {
      SplitSize(items[1..]);
      var head := items[0];
      assert ([head] + Pinned(items[1..]))[1..] == Pinned(items[1..]);
      assert ([head] + Unpinned(items[1..]))[1..] == Unpinned(items[1..]);
    }
  }

  lemma {:induction false} SizeOfConcat(xs: seq<Item>, ys: seq<Item>)
    ensures Size(xs + ys) == Size(xs) + Size(ys)
  {
    if xs == [] {
      assert xs + ys == ys;
    } else {
      assert (xs + ys)[1..] == xs[1..] + ys;
      SizeOfConcat(xs[1..], ys);
    }
  }

  lemma {:induction false} PinnedOfConcat(xs: seq<Item>, ys: seq<Item>)
    ensures Pinned(xs + ys) == Pinned(xs) + Pinned(ys)
  {
    if xs == [] {
      assert xs + ys == ys;
    } else {
      assert (xs + ys)[1..] == xs[1..] + ys;
      PinnedOfConcat(xs[1..], ys);
    }
  }

  /** What sparing keeps: every pinned item and the younger unpinned ones, in order. */
  lemma {:induction false} SpareMeaning(items: seq<Item>, k: nat)
    requires k <= |Unpinned(items)|
    ensures Pinned(Spare(items, k)) == Pinned(items)
    ensures Unpinned(Spare(items, k)) == Unpinned(items)[k..]
    ensures forall x :: x in Spare(items, k) ==> x in items
  {
    if items == [] {
    } else if items[0].pinned {
      SpareMeaning(items[1..], k);
      assert Spare(items, k)[1..] == Spare(items[1..], k);
    } else if k > 0 {
      SpareMeaning(items[1..], k - 1);
    }
  }

  lemma SpareSize(items: seq<Item>, k: nat)
    requires k <= |Unpinned(items)|
    ensures |Spare(items, k)| == |items| - k
    ensures Size(Spare(items, k)) == Size(items) - Size(Unpinned(items)[..k])
  {
    var u := Unpinned(items);
    SpareMeaning(items, k);
    SplitSize(items);
    SplitSize(Spare(items, k));
    assert u == u[..k] + u[k..];
    SizeOfConcat(u[..k], u[k..]);
  }

  // ----------------------------------------------------- the item order ---

  /** Insertion order: numbers strictly increase, all below `limit`. */
  ghost predicate Ordered(items: seq<Item>, limit: nat) {
    items != [] ==>
    1 <= items[0].id.number < limit
    && (forall x :: x in items[1..] ==> items[0].id.number < x.id.number)
    && Ordered(items[1..], limit)
  }

  lemma {:induction false} OrderedAppend(items: seq<Item>, x: Item)
    requires Ordered(items, x.id.number) && x.id.number >= 1
    ensures Ordered(items + [x], x.id.number + 1)
  {
    if items == [] {
      assert items + [x] == [x];
    } else {
      var head, rest := items[0], items[1..];
      OrderedAppend(rest, x);
      assert (items + [x])[1..] == rest + [x];
    }
  }

  lemma {:induction false} SortedByPin(items: seq<Item>)
    ensures forall x :: x in Unpinned(items) <==> x in items && !x.pinned
    ensures forall x :: x in Pinned(items) <==> x in items && x.pinned
  {
    if items != [] {
      SortedByPin(items[1..]);
      assert forall x :: x in items <==> x == items[0] || x in items[1..];
    }
  }

  /** Removing victims leaves a head that is none of them. */
  lemma {:induction false} RemoveBehind(head: Item, rest: seq<Item>, vs: seq<Item>)
    requires head !in vs
    ensures RemoveAll([head] + rest, vs) == [head] + RemoveAll(rest, vs)
    decreases |vs|
  {
    if vs != [] {
      assert ([head] + rest)[1..] == rest;
      RemoveBehind(head, RemoveFirst(rest, vs[0]), vs[1..]);
    }
  }

  /** Removing the victims one by one is sparing the rest. */
  lemma {:induction false} RemovingSpares(items: seq<Item>, k: nat, limit: nat)
    requires k <= |Unpinned(items)| && Ordered(items, limit)
    ensures RemoveAll(items, Unpinned(items)[..k]) == Spare(items, k)
  {
    if items != [] {
      var head, rest := items[0], items[1..];
      SortedByPin(rest);
      if head.pinned {
        assert items == [head] + rest;
        RemoveBehind(head, rest, Unpinned(rest)[..k]);
        RemovingSpares(rest, k, limit);
      } else if k == 0 {
        assert Unpinned(items)[..k] == [];
      } else {
        var vs := Unpinned(items)[..k];
        assert vs[0] == head && vs[1..] == Unpinned(rest)[..k - 1];
        assert RemoveFirst(items, head) == rest;
        RemovingSpares(rest, k - 1, limit);
      }
    }
  }

  lemma {:induction false} SpareOrdered(items: seq<Item>, k: nat, limit: nat)
    requires k <= |Unpinned(items)| && Ordered(items, limit)
    ensures Ordered(Spare(items, k), limit)
  {
    if items != [] {
      if items[0].pinned {
        SpareOrdered(items[1..], k, limit);
        SpareMeaning(items[1..], k);
        assert Spare(items, k)[1..] == Spare(items[1..], k);
      } else if k > 0 {
        SpareOrdered(items[1..], k - 1, limit);
      }
    }
  }

  // ---------------------------------------------------------- operations ---

  predicate Usable(b: Bounds, text: string) { text != "" && |text| <= b.maxChars }

  /** The task after evicting for an addition; `None` when it must be refused. */
  function Evict(b: Bounds, t: Task, moreChars: int, moreItems: nat): Option<Task> {
    match Evictions(t.items, ItemsOver(b, t, moreItems), CharsOver(b, t, moreChars))
    case None => None
    case Some(n) => Some(t.(items := Spare(t.items, n)))
  }

  function Append(t: Task, section: Section, text: string, pinned: bool): Task {
    t.(items := t.items + [Item(ItemId(section, t.nextSeq), text, pinned)], nextSeq := t.nextSeq + 1)
  }

  function PushTask(b: Bounds, t: Task, section: Section, text: string, pinned: bool): Option<Task> {
    if !Usable(b, text) then None
    else match Evict(b, t, |text|, 1) case None => None case Some(left) => Some(Append(left, section, text, pinned))
  }

  function SetTask(b: Bounds, t: Task, slot: Slot, text: string): Option<Task> {
    if !Usable(b, text) then None
    else match Evict(b, t, |text| - |TextIn(t.slots, slot)|, 0)
      case None => None
      case Some(left) => Some(left.(slots := left.slots[slot := text]))
  }

  function PinFirst(items: seq<Item>, id: ItemId): seq<Item> {
    if items == [] then []
    else if items[0].id == id then [items[0].(pinned := true)] + items[1..]
    else [items[0]] + PinFirst(items[1..], id)
  }

  function DropFirst(items: seq<Item>, id: ItemId): seq<Item> {
    if items == [] then [] else if items[0].id == id then items[1..] else [items[0]] + DropFirst(items[1..], id)
  }

  datatype Op =
    | Push(task: string, section: Section, text: string, pinned: bool)
    | SetSlot(task: string, slot: Slot, text: string)
    | Pin(task: string, id: ItemId)
    | Drop(task: string, id: ItemId)
    | Clear(task: string)

  function TaskOrNew(tasks: Tasks, id: string): Task { if id in tasks then tasks[id] else NEW_TASK }

  predicate HasId(t: Task, id: ItemId) { exists x <- t.items :: x.id == id }

  /** The task an accepted operation leaves; `None` when it is refused. */
  function Next(b: Bounds, t: Task, op: Op): Option<Task>
    requires !op.Clear?
  {
    match op
    case Push(_, section, text, pinned) => PushTask(b, t, section, Strip(text), pinned)
    case SetSlot(_, slot, text) => SetTask(b, t, slot, Strip(text))
    case Pin(_, id) => if HasId(t, id) then Some(t.(items := PinFirst(t.items, id))) else None
    case Drop(_, id) => if HasId(t, id) then Some(t.(items := DropFirst(t.items, id))) else None
  }

  function With(tasks: Tasks, task: string, t: Option<Task>): Tasks {
    if t.None? then tasks else tasks[task := t.value]
  }

  /** A refused operation changes nothing. */
  function Apply(b: Bounds, tasks: Tasks, op: Op): Tasks {
    if op.Clear? then tasks - {op.task} else With(tasks, op.task, Next(b, TaskOrNew(tasks, op.task), op))
  }

  function Run(b: Bounds, tasks: Tasks, ops: seq<Op>): Tasks
    decreases |ops|
  {
    if ops == [] then tasks else Run(b, Apply(b, tasks, ops[0]), ops[1..])
  }

  // ---------------------------------------------------------- invariants ---

  ghost predicate TaskInv(b: Bounds, t: Task) {
    && |t.items| <= b.maxItems && t.Chars() <= b.maxChars
    && Ordered(t.items, t.nextSeq) && t.nextSeq >= 1
    && forall x :: x in t.items ==> x.text != ""
  }

  ghost predicate Inv(b: Bounds, tasks: Tasks) {
    && b.maxItems >= 1 && b.maxChars >= 1
    && forall id :: id in tasks ==> TaskInv(b, tasks[id])
  }

  /** EVICTION: the victims are an oldest-first run of unpinned items; what stays is
      every pinned item and every younger one ... */
  lemma EvictionKeepsTheRest(b: Bounds, t: Task, moreChars: int, moreItems: nat)
    requires Ordered(t.items, t.nextSeq) && Evict(b, t, moreChars, moreItems).Some?
    ensures var vs := Victims(b, t, moreChars, moreItems).value;
      var left := Evict(b, t, moreChars, moreItems).value;
      left == t.(items := RemoveAll(t.items, vs)) && SplitsInto(t.items, vs, left.items)
  {
    var n := Evictions(t.items, ItemsOver(b, t, moreItems), CharsOver(b, t, moreChars)).value;
    SpareMeaning(t.items, n);
    RemovingSpares(t.items, n, t.nextSeq);
  }

  predicate SplitsInto(items: seq<Item>, victims: seq<Item>, left: seq<Item>) {
    Pinned(left) == Pinned(items) && Unpinned(items) == victims + Unpinned(left)
  }

  /** ... and no shorter run would have made room. */
  lemma EvictionIsMinimal(b: Bounds, t: Task, moreChars: int, moreItems: nat, k: nat)
    requires Evict(b, t, moreChars, moreItems).Some? && k <= |Victims(b, t, moreChars, moreItems).value|
    ensures Enough(t.items, ItemsOver(b, t, moreItems), CharsOver(b, t, moreChars), k) <==>
      k == |Victims(b, t, moreChars, moreItems).value|
  {
    EvictionsAreLeast(t.items, ItemsOver(b, t, moreItems), CharsOver(b, t, moreChars), k);
  }

  lemma EvictionFits(b: Bounds, t: Task, moreChars: int, moreItems: nat)
    requires Evict(b, t, moreChars, moreItems).Some?
    ensures var left := Evict(b, t, moreChars, moreItems).value;
      && |left.items| + moreItems <= b.maxItems && left.Chars() + moreChars <= b.maxChars
      && Pinned(left.items) == Pinned(t.items)
  {
    var n := Evictions(t.items, ItemsOver(b, t, moreItems), CharsOver(b, t, moreChars)).value;
    EvictionsAreLeast(t.items, ItemsOver(b, t, moreItems), CharsOver(b, t, moreChars), n);
    SpareSize(t.items, n);
    SpareMeaning(t.items, n);
  }

  lemma EvictKeepsOrder(b: Bounds, t: Task, moreChars: int, moreItems: nat)
    requires Ordered(t.items, t.nextSeq) && Evict(b, t, moreChars, moreItems).Some?
    ensures var left := Evict(b, t, moreChars, moreItems).value;
      Ordered(left.items, t.nextSeq) && forall x :: x in left.items ==> x in t.items
  {
    var n := Evictions(t.items, ItemsOver(b, t, moreItems), CharsOver(b, t, moreChars)).value;
    SpareMeaning(t.items, n);
    SpareOrdered(t.items, n, t.nextSeq);
  }

  lemma RoomExactly(b: Bounds, t: Task, moreChars: int, moreItems: nat)
    ensures Evict(b, t, moreChars, moreItems).Some? <==>
      && |Pinned(t.items)| + moreItems <= b.maxItems
      && t.SlotChars() + Size(Pinned(t.items)) + moreChars <= b.maxChars
  {
    SplitSize(t.items);
    EvictionsExactly(t.items, ItemsOver(b, t, moreItems), CharsOver(b, t, moreChars));
  }

  /** REFUSALS: within the bounds, a push of a usable text is refused exactly when
      the slots plus the pinned items alone leave no room for it ... */
  lemma PushRefusedExactly(b: Bounds, t: Task, section: Section, text: string, pinned: bool)
    requires TaskInv(b, t)
    ensures PushTask(b, t, section, text, pinned).None? <==>
      || text == "" || |text| > b.maxChars
      || |Pinned(t.items)| + 1 > b.maxItems
      || t.SlotChars() + Size(Pinned(t.items)) + |text| > b.maxChars
  {
    if Usable(b, text) { RoomExactly(b, t, |text|, 1); }
  }

  /** ... and so is a slot write, which counts the text it replaces as gone. */
  lemma SlotRefusedExactly(b: Bounds, t: Task, slot: Slot, text: string)
    requires TaskInv(b, t)
    ensures SetTask(b, t, slot, text).None? <==>
      || text == "" || |text| > b.maxChars
      || t.SlotChars() - |TextIn(t.slots, slot)| + Size(Pinned(t.items)) + |text| > b.maxChars
  {
    SplitSize(t.items);
    if Usable(b, text) { RoomExactly(b, t, |text| - |TextIn(t.slots, slot)|, 0); }
  }

  /** An unknown task refuses no usable text, so a refusal never leaves a new
      empty task behind. */
  lemma NewTaskAccepts(b: Bounds, section: Section, slot: Slot, text: string, pinned: bool)
    requires b.maxItems >= 1 && Usable(b, text)
    ensures PushTask(b, NEW_TASK, section, text, pinned).Some? && SetTask(b, NEW_TASK, slot, text).Some?
  {
    NoSlots(SLOTS);
    PushRefusedExactly(b, NEW_TASK, section, text, pinned);
    SlotRefusedExactly(b, NEW_TASK, slot, text);
  }

  lemma {:induction false} NoSlots(slots: seq<Slot>)
    ensures CharsIn(map[], slots) == 0
  {
    if slots != [] { NoSlots(slots[1..]); }
  }

  lemma PushKeepsInv(b: Bounds, t: Task, section: Section, text: string, pinned: bool)
    requires TaskInv(b, t) && PushTask(b, t, section, text, pinned).Some?
    ensures var u := PushTask(b, t, section, text, pinned).value;
      TaskInv(b, u) && Pinned(t.items) <= Pinned(u.items)
  {
    EvictionFits(b, t, |text|, 1);
    EvictKeepsOrder(b, t, |text|, 1);
    var left := Evict(b, t, |text|, 1).value;
    AppendKeeps(left, section, text, pinned);
  }

  lemma AppendKeeps(t: Task, section: Section, text: string, pinned: bool)
    requires Ordered(t.items, t.nextSeq) && t.nextSeq >= 1 && text != ""
    requires forall x :: x in t.items ==> x.text != ""
    ensures var u := Append(t, section, text, pinned);
      && Ordered(u.items, u.nextSeq) && u.Chars() == t.Chars() + |text| && Pinned(t.items) <= Pinned(u.items)
      && forall x :: x in u.items ==> x.text != ""
  {
    var x := Item(ItemId(section, t.nextSeq), text, pinned);
    OrderedAppend(t.items, x);
    SizeOfConcat(t.items, [x]);
    assert Size([x]) == |x.text|;
    PinnedOfConcat(t.items, [x]);
  }

  lemma SlotKeepsInv(b: Bounds, t: Task, slot: Slot, text: string)
    requires TaskInv(b, t) && SetTask(b, t, slot, text).Some?
    ensures var u := SetTask(b, t, slot, text).value;
      TaskInv(b, u) && Pinned(u.items) == Pinned(t.items)
  {
    var more := |text| - |TextIn(t.slots, slot)|;
    EvictionFits(b, t, more, 0);
    EvictKeepsOrder(b, t, more, 0);
    SlotInSlots(slot);
    CharsAfterSet(t.slots, SLOTS, slot, text);
  }

  lemma SlotInSlots(slot: Slot)
    ensures slot in SLOTS
  {
    assert SLOTS[0] == Goal && SLOTS[1] == Subgoal && SLOTS[2] == PlanDigest;
    assert SLOTS[3] == CriticFeedback && SLOTS[4] == ExecutionContext && SLOTS[5] == Retrieved;
  }

  lemma {:induction false} CharsAfterSet(texts: map<Slot, string>, slots: seq<Slot>, slot: Slot, text: string)
    requires forall i, j :: 0 <= i < j < |slots| ==> slots[i] != slots[j]
    ensures CharsIn(texts[slot := text], slots) ==
      CharsIn(texts, slots) + if slot in slots then |text| - |TextIn(texts, slot)| else 0
  {
    if slots != [] {
      CharsAfterSet(texts, slots[1..], slot, text);
    }
  }

  lemma {:induction false} DropOrdered(items: seq<Item>, id: ItemId, limit: nat)
    requires Ordered(items, limit)
    ensures Ordered(DropFirst(items, id), limit)
    ensures forall x :: x in DropFirst(items, id) <==> x in items && x.id != id
  {
    if items != [] {
      DropOrdered(items[1..], id, limit);
      assert forall x :: x in items <==> x == items[0] || x in items[1..];
      assert ([items[0]] + DropFirst(items[1..], id))[1..] == DropFirst(items[1..], id);
    }
  }

  lemma {:induction false} DropSmaller(items: seq<Item>, id: ItemId)
    ensures |DropFirst(items, id)| <= |items| && Size(DropFirst(items, id)) <= Size(items)
  {
    if items != [] {
      DropSmaller(items[1..], id);
      assert ([items[0]] + DropFirst(items[1..], id))[1..] == DropFirst(items[1..], id);
    }
  }

  lemma {:induction false} PinSameSize(items: seq<Item>, id: ItemId)
    ensures |PinFirst(items, id)| == |items| && Size(PinFirst(items, id)) == Size(items)
  {
    if items != [] {
      PinSameSize(items[1..], id);
      var r := PinFirst(items, id);
      assert r[1..] == if items[0].id == id then items[1..] else PinFirst(items[1..], id);
    }
  }

  /** Pinning changes pins alone, and takes none away. */
  lemma {:induction false} PinKeeps(items: seq<Item>, id: ItemId)
    ensures forall x :: x in PinFirst(items, id) ==> x in items || x.(pinned := false) in items
    ensures forall x :: x in items && x.pinned ==> x in PinFirst(items, id)
  {
    if items != [] {
      PinKeeps(items[1..], id);
      assert forall x :: x in items <==> x == items[0] || x in items[1..];
      assert items[0].pinned ==> items[0].(pinned := true) == items[0];
      assert items[0].(pinned := true).(pinned := false) == items[0].(pinned := false);
      assert !items[0].pinned ==> items[0].(pinned := false) == items[0];
    }
  }

  lemma {:induction false} PinOrdered(items: seq<Item>, id: ItemId, limit: nat)
    requires Ordered(items, limit)
    ensures Ordered(PinFirst(items, id), limit)
  {
    if items != [] {
      PinOrdered(items[1..], id, limit);
      PinKeeps(items[1..], id);
      var r := PinFirst(items, id);
      assert r[1..] == if items[0].id == id then items[1..] else PinFirst(items[1..], id);
    }
  }

  lemma PinnedStay(items: seq<Item>, after: seq<Item>)
    requires Pinned(items) <= Pinned(after)
    ensures forall x :: x in items && x.pinned ==> x in after
  {
    SortedByPin(items);
    SortedByPin(after);
    forall x | x in items && x.pinned ensures x in after { assert x in Pinned(after); }
  }

  lemma NextIsSafe(b: Bounds, t: Task, op: Op)
    requires TaskInv(b, t) && !op.Clear? && Next(b, t, op).Some?
    ensures TaskInv(b, Next(b, t, op).value)
    ensures forall x :: x in t.items && x.pinned && !(op.Drop? && op.id == x.id) ==> x in Next(b, t, op).value.items
  {
    match op {
      case Push(_, section, text, pinned) =>
        PushKeepsInv(b, t, section, Strip(text), pinned);
        PinnedStay(t.items, Next(b, t, op).value.items);
      case SetSlot(_, slot, text) =>
        SlotKeepsInv(b, t, slot, Strip(text));
        PinnedStay(t.items, Next(b, t, op).value.items);
      case Pin(_, id) => PinOrdered(t.items, id, t.nextSeq); PinSameSize(t.items, id); PinKeeps(t.items, id);
      case Drop(_, id) => DropOrdered(t.items, id, t.nextSeq); DropSmaller(t.items, id);
    }
  }

  lemma NewTaskInv(b: Bounds)
    ensures TaskInv(b, NEW_TASK)
  {
    NoSlots(SLOTS);
  }

  /** BOUNDS, ISOLATION AND PINS, one operation: every task stays within its item
      and character bounds, no other task is touched, and a pinned item leaves only
      by being dropped or cleared. */
  lemma StepIsSafe(b: Bounds, tasks: Tasks, op: Op)
    requires Inv(b, tasks)
    ensures var after := Apply(b, tasks, op);
      && Inv(b, after)
      && (forall id :: id != op.task ==> (id in after <==> id in tasks))
      && (forall id :: id != op.task && id in tasks ==> after[id] == tasks[id])
      && (forall x :: op.task in tasks && x in tasks[op.task].items && x.pinned && !op.Clear? && !(op.Drop? && op.id == x.id) ==>
            op.task in after && x in after[op.task].items)
  {
    NewTaskInv(b);
    var t := TaskOrNew(tasks, op.task);
    if !op.Clear? && Next(b, t, op).Some? { NextIsSafe(b, t, op); }
  }

  /** BOUNDS over any sequence of operations, from any good state. */
  lemma {:induction false} RunIsBounded(b: Bounds, tasks: Tasks, ops: seq<Op>)
    requires Inv(b, tasks)
    ensures Inv(b, Run(b, tasks, ops))
    decreases |ops|
  {
    if ops != [] {
      StepIsSafe(b, tasks, ops[0]);
      RunIsBounded(b, Apply(b, tasks, ops[0]), ops[1..]);
    }
  }

  /** A PIN HOLDS through any sequence of operations that neither drops that item
      nor clears its task. */
  lemma {:induction false} PinHolds(b: Bounds, tasks: Tasks, ops: seq<Op>, task: string, x: Item)
    requires Inv(b, tasks) && task in tasks && x in tasks[task].items && x.pinned
    requires forall op :: op in ops && op.task == task ==> !op.Clear? && !(op.Drop? && op.id == x.id)
    ensures var after := Run(b, tasks, ops); task in after && x in after[task].items
    decreases |ops|
  {
    if ops != [] {
      StepIsSafe(b, tasks, ops[0]);
      PinHolds(b, Apply(b, tasks, ops[0]), ops[1..], task, x);
    }
  }

  /** TASKS ARE ISOLATED: a run that never names a task leaves it as it was. */
  lemma {:induction false} TasksAreIsolated(b: Bounds, tasks: Tasks, ops: seq<Op>, task: string)
    requires Inv(b, tasks) && forall op :: op in ops ==> op.task != task
    ensures var after := Run(b, tasks, ops);
      (task in after <==> task in tasks) && (task in tasks ==> after[task] == tasks[task])
    decreases |ops|
  {
    if ops != [] {
      StepIsSafe(b, tasks, ops[0]);
      TasksAreIsolated(b, Apply(b, tasks, ops[0]), ops[1..], task);
    }
  }

  // ------------------------------------------------- what each operation does ---

  /** Item `i` is the first with the id. */
  predicate FirstAt(items: seq<Item>, id: ItemId, i: nat) {
    i < |items| && items[i].id == id && forall j :: 0 <= j < i ==> items[j].id != id
  }

  lemma {:induction false} FirstPinned(items: seq<Item>, id: ItemId, i: nat)
    requires FirstAt(items, id, i)
    ensures PinFirst(items, id) == items[..i] + [Item(id, items[i].text, true)] + items[i + 1..]
  {
    if i > 0 {
      var rest := items[1..];
      assert forall j :: 0 <= j < |rest| ==> rest[j] == items[j + 1];
      FirstPinned(rest, id, i - 1);
      assert [items[0]] + rest[..i - 1] == items[..i] && rest[i..] == items[i + 1..];
    } else {
      assert items[..0] == [];
    }
  }

  lemma {:induction false} FirstDropped(items: seq<Item>, id: ItemId, i: nat)
    requires FirstAt(items, id, i)
    ensures DropFirst(items, id) == items[..i] + items[i + 1..]
  {
    if i > 0 {
      var rest := items[1..];
      assert forall j :: 0 <= j < |rest| ==> rest[j] == items[j + 1];
      FirstDropped(rest, id, i - 1);
      assert [items[0]] + rest[..i - 1] == items[..i] && rest[i..] == items[i + 1..];
    } else {
      assert items[..0] == [];
    }
  }

  /** AN ACCEPTED PUSH adds exactly the stripped text, under the next number, in its
      section and with the pin asked for, after what eviction leaves. */
  lemma PushExactly(b: Bounds, t: Task, section: Section, text: string, pinned: bool)
    requires PushTask(b, t, section, text, pinned).Some?
    ensures var u := PushTask(b, t, section, text, pinned).value;
      && Evict(b, t, |text|, 1).Some?
      && u.items == Evict(b, t, |text|, 1).value.items + [Item(ItemId(section, t.nextSeq), text, pinned)]
      && u.nextSeq == t.nextSeq + 1 && u.slots == t.slots
  {
  }

  /** AN ACCEPTED SLOT WRITE sets that slot alone, and evicts as much as it needs. */
  lemma SlotExactly(b: Bounds, t: Task, slot: Slot, text: string)
    requires SetTask(b, t, slot, text).Some?
    ensures var u := SetTask(b, t, slot, text).value;
      var more := |text| - if slot in t.slots then |t.slots[slot]| else 0;
      && Evict(b, t, more, 0).Some? && u.items == Evict(b, t, more, 0).value.items
      && u.slots == t.slots[slot := text] && u.nextSeq == t.nextSeq
  {
  }

  /** The task an operation starts from: the one of that name, or an empty one. */
  function Named(tasks: Tasks, task: string): Task { if task in tasks then tasks[task] else Task(map[], [], 1) }

  /** EVERY WRITE works on the task it names, with its text stripped; a refused one
      changes nothing ... */
  lemma WritesExactly(b: Bounds, tasks: Tasks, op: Op)
    requires op.Push? || op.SetSlot?
    ensures var t := Named(tasks, op.task);
      var u := if op.Push? then PushTask(b, t, op.section, Strip(op.text), op.pinned) else SetTask(b, t, op.slot, Strip(op.text));
      Apply(b, tasks, op) == if u.Some? then tasks[op.task := u.value] else tasks
  {
  }

  /** ... and clearing forgets the task, and no other. */
  lemma ClearExactly(b: Bounds, tasks: Tasks, task: string)
    ensures var after := Apply(b, tasks, Clear(task));
      after.Keys == tasks.Keys - {task} && forall k <- after :: after[k] == tasks[k]
  {
  }

  /** PINNING sets the pin of the first item with the id, and DROPPING removes it,
      pinned or not; nothing else changes, and without one nothing at all. */
  lemma PinExactly(b: Bounds, tasks: Tasks, task: string, id: ItemId, i: nat)
    ensures var t := Named(tasks, task);
      var after := Apply(b, tasks, Pin(task, id));
      && (FirstAt(t.items, id, i) ==>
            after == tasks[task := Task(t.slots, t.items[..i] + [Item(id, t.items[i].text, true)] + t.items[i + 1..], t.nextSeq)])
      && ((forall x <- t.items :: x.id != id) ==> after == tasks)
  {
    var t := Named(tasks, task);
    if FirstAt(t.items, id, i) {
      FirstPinned(t.items, id, i);
      assert t.items[i] in t.items;
    }
  }

  lemma DropExactly(b: Bounds, tasks: Tasks, task: string, id: ItemId, i: nat)
    ensures var t := Named(tasks, task);
      var after := Apply(b, tasks, Drop(task, id));
      && (FirstAt(t.items, id, i) ==> after == tasks[task := Task(t.slots, t.items[..i] + t.items[i + 1..], t.nextSeq)])
      && ((forall x <- t.items :: x.id != id) ==> after == tasks)
  {
    var t := Named(tasks, task);
    if FirstAt(t.items, id, i) {
      FirstDropped(t.items, id, i);
      assert t.items[i] in t.items;
    }
  }

  // ------------------------------------------------------ the live object ---

  lemma ApplyKeepsInv(b: Bounds, tasks: Tasks, op: Op)
    requires Inv(b, tasks)
    ensures Inv(b, Apply(b, tasks, op))
    ensures op.task in tasks ==> Ordered(tasks[op.task].items, tasks[op.task].nextSeq)
  {
    StepIsSafe(b, tasks, op);
  }

  predicate FirstWith(items: seq<Item>, id: ItemId, i: Option<nat>) {
    match i
    case None => forall x <- items :: x.id != id
    case Some(n) => n < |items| && items[n].id == id && forall x <- items[..n] :: x.id != id
  }

  lemma {:induction false} FirstEffect(items: seq<Item>, id: ItemId, i: nat)
    requires FirstWith(items, id, Some(i))
    ensures PinFirst(items, id) == items[i := items[i].(pinned := true)]
    ensures DropFirst(items, id) == items[..i] + items[i + 1..]
    decreases |items|
  {
    if i > 0 {
      assert items[0] in items[..i];
      forall x | x in items[1..][..i - 1] ensures x.id != id { assert x in items[..i]; }
      FirstEffect(items[1..], id, i - 1);
    }
  }

  lemma SetTwice(tasks: Tasks, task: string, t: Task, u: Task)
    ensures tasks[task := t][task := u] == tasks[task := u]
  {
  }

  class WorkingMemory {
    const bounds: Bounds
    var tasks: Tasks

    ghost predicate Valid()
      reads this
    {
      Inv(bounds, tasks)
    }

    constructor (maxItems: nat, maxChars: nat)
      requires maxItems >= 1 && maxChars >= 1
      ensures Valid() && tasks == map[] && bounds == Bounds(maxItems, maxChars)
    {
      bounds, tasks := Bounds(maxItems, maxChars), map[];
    }

    /** The victims of one insertion, or `None` when it must be refused. */
    method EvictPlan(t: Task, moreChars: int, moreItems: nat) returns (plan: Option<seq<Item>>)
      ensures plan == Victims(bounds, t, moreChars, moreItems)
    {
      var itemsOver, charsOver := |t.items| + moreItems - bounds.maxItems, t.Chars() + moreChars - bounds.maxChars;
      ghost var all := PlanFrom(t.items, itemsOver, charsOver, []);
      PlanIsVictims(bounds, t, moreChars, moreItems);
      if itemsOver <= 0 && charsOver <= 0 {
        return Some([]);
      }
      var victims: seq<Item> := [];
      assert t.items[0..] == t.items;
      for i := 0 to |t.items|
        invariant !(itemsOver <= 0 && charsOver <= 0) && all == PlanFrom(t.items[i..], itemsOver, charsOver, victims)
      {
        var x := t.items[i];
        PlanAt(t.items, i, itemsOver, charsOver, victims);
        if !x.pinned {
          victims := victims + [x];
          charsOver := charsOver - |x.text|;
          itemsOver := itemsOver - 1;
          if itemsOver <= 0 && charsOver <= 0 {
            return Some(victims);
          }
        }
      }
      plan := None;
    }

    /** Removes the victims from a task's list, one after the other. */
    method Remove(items: seq<Item>, victims: seq<Item>) returns (left: seq<Item>)
      ensures left == RemoveAll(items, victims)
    {
      left := items;
      for i := 0 to |victims|
        invariant RemoveAll(left, victims[i..]) == RemoveAll(items, victims)
      {
        assert victims[i..][1..] == victims[i + 1..];
        left := RemoveFirst(left, victims[i]);
      }
    }

    /** Evicts for an addition to a known task; `None` refuses and changes nothing. */
    method MakeRoom(t: Task, moreChars: int, moreItems: nat) returns (left: Option<Task>)
      requires Ordered(t.items, t.nextSeq)
      ensures left == Evict(bounds, t, moreChars, moreItems)
    {
      var plan := EvictPlan(t, moreChars, moreItems);
      if plan.None? { return None; }
      EvictionKeepsTheRest(bounds, t, moreChars, moreItems);
      var items := Remove(t.items, plan.value);
      left := Some(t.(items := items));
    }

    /** The insertion proper, on the task that `setdefault` found or made. */
    method Insert(t: Task, section: Section, text: string, pinned: bool) returns (u: Option<Task>)
      requires Ordered(t.items, t.nextSeq) && Usable(bounds, text)
      ensures u == PushTask(bounds, t, section, text, pinned)
    {
      var left := MakeRoom(t, |text|, 1);
      if left.None? { return None; }
      var item := Item(ItemId(section, t.nextSeq), text, pinned);
      u := Some(left.value.(items := left.value.items + [item], nextSeq := left.value.nextSeq + 1));
    }

    method PushItem(task: string, section: Section, text: string, pinned: bool) returns (id: Option<ItemId>)
      requires Valid()
      modifies this
      ensures Valid() && tasks == Apply(bounds, old(tasks), Push(task, section, text, pinned))
      ensures id == if PushTask(bounds, TaskOrNew(old(tasks), task), section, Strip(text), pinned).None? then None
                    else Some(ItemId(section, TaskOrNew(old(tasks), task).nextSeq))
    {
      ApplyKeepsInv(bounds, tasks, Push(task, section, text, pinned));
      var stripped := Strip(text);
      if stripped == "" || |stripped| > bounds.maxChars { return None; }
      NewTaskAccepts(bounds, section, Goal, stripped, pinned);
      if task !in tasks { tasks := tasks[task := NEW_TASK]; }
      var t := tasks[task];
      var u := Insert(t, section, stripped, pinned);
      if u.None? { return None; }
      SetTwice(old(tasks), task, t, u.value);
      tasks := tasks[task := u.value];
      id := Some(ItemId(section, t.nextSeq));
    }

    method Replace(t: Task, slot: Slot, text: string) returns (u: Option<Task>)
      requires Ordered(t.items, t.nextSeq) && Usable(bounds, text)
      ensures u == SetTask(bounds, t, slot, text)
    {
      var left := MakeRoom(t, |text| - |TextIn(t.slots, slot)|, 0);
      if left.None? { return None; }
      u := Some(left.value.(slots := left.value.slots[slot := text]));
    }

    method SetSlotText(task: string, slot: Slot, text: string) returns (ok: bool)
      requires Valid()
      modifies this
      ensures Valid() && tasks == Apply(bounds, old(tasks), SetSlot(task, slot, text))
      ensures ok == SetTask(bounds, TaskOrNew(old(tasks), task), slot, Strip(text)).Some?
    {
      ApplyKeepsInv(bounds, tasks, SetSlot(task, slot, text));
      var stripped := Strip(text);
      if stripped == "" || |stripped| > bounds.maxChars { return false; }
      NewTaskAccepts(bounds, Observation, slot, stripped, false);
      if task !in tasks { tasks := tasks[task := NEW_TASK]; }
      var t := tasks[task];
      var u := Replace(t, slot, stripped);
      if u.None? { return false; }
      SetTwice(old(tasks), task, t, u.value);
      tasks := tasks[task := u.value];
      ok := true;
    }

    method IndexOf(items: seq<Item>, id: ItemId) returns (at: Option<nat>)
      ensures FirstWith(items, id, at)
    {
      for i := 0 to |items|
        invariant forall x <- items[..i] :: x.id != id
      {
        if items[i].id == id { return Some(i); }
        assert items[..i] + [items[i]] == items[..i + 1];
      }
      assert items[..|items|] == items;
      at := None;
    }

    method PinItem(task: string, id: ItemId) returns (ok: bool)
      requires Valid()
      modifies this
      ensures Valid() && tasks == Apply(bounds, old(tasks), Pin(task, id))
      ensures ok == HasId(TaskOrNew(old(tasks), task), id)
    {
      ApplyKeepsInv(bounds, tasks, Pin(task, id));
      if task !in tasks { return false; }
      var items := tasks[task].items;
      var at := IndexOf(items, id);
      if at.None? { return false; }
      FirstEffect(items, id, at.value);
      tasks := tasks[task := tasks[task].(items := items[at.value := items[at.value].(pinned := true)])];
      ok := true;
    }

    /** An explicit drop removes any item, pinned or not. */
    method DropItem(task: string, id: ItemId) returns (ok: bool)
      requires Valid()
      modifies this
      ensures Valid() && tasks == Apply(bounds, old(tasks), Drop(task, id))
      ensures ok == HasId(TaskOrNew(old(tasks), task), id)
    {
      ApplyKeepsInv(bounds, tasks, Drop(task, id));
      if task !in tasks { return false; }
      var items := tasks[task].items;
      var at := IndexOf(items, id);
      if at.None? { return false; }
      FirstEffect(items, id, at.value);
      tasks := tasks[task := tasks[task].(items := items[..at.value] + items[at.value + 1..])];
      ok := true;
    }

    method ClearTask(task: string)
      requires Valid()
      modifies this
      ensures Valid() && tasks == Apply(bounds, old(tasks), Clear(task))
    {
      ApplyKeepsInv(bounds, tasks, Clear(task));
      tasks := tasks - {task};
    }
  }
}
