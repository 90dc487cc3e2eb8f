/**
 Memory objects, shadow objects and private writable mappings (vm/object.c, vm/shadow.c,
 vm/vas.c): the state, what an object reads as, and the invariant.
 */
module CowState {
  import opened Lists

  const PAGE: nat := 4096

  newtype byte = x: int | 0 <= x < 256

  type Page = p: seq<byte> | |p| == PAGE witness seq(PAGE, _ => 0)

  type Pages = map<nat, Page>

  type Id = nat

  /**
   A root object (anonymous memory or a file) fills a page from `fill` when it is first needed.
   A shadow object holds the pages written since it was made; `below` is the object it shadows
   and None once its pages have moved to its only child. `held` counts the references of a root
   from outside the address spaces.
   */
  datatype Obj =
    | Root(pages: Pages, ref: nat, fill: nat -> Page, file: bool, held: nat)
    | Shadow(pages: Pages, ref: nat, size: nat, below: Option<Id>, root: Id, depth: nat, demand: nat, kids: seq<Id>)

  /**
   A private writable mapping of the object bytes [PAGE * first, limit). `flagged` is
   VM_MAP_SHADOW; `hw` are the pages the hardware maps writable.
   */
  datatype Mapping = Mapping(vas: nat, obj: Id, first: nat, limit: nat, flagged: bool, hw: set<nat>)

  type Objs = map<Id, Obj>
  type Maps = map<Id, Mapping>

  /** `loose` are references that running kernel code still has to drop. */
  datatype State = State(objs: Objs, maps: Maps, loose: multiset<Id>)

  // ----- Chains -----

  ghost predicate Linked(objs: Objs) {
    forall o {:trigger LinkedAt(objs, o)} | o in objs && objs[o].Shadow? :: LinkedAt(objs, o)
  }

  /** Depths fall and sizes do not shrink along the chain, which ends in the object's root. */
  ghost predicate LinkedAt(objs: Objs, o: Id)
    requires o in objs && objs[o].Shadow?
  {
    var s := objs[o];
    match s.below
    case None => s.pages == map[] && s.kids == [] && s.demand == 0
    case Some(b) =>
      && s.depth >= 1 && s.root in objs && objs[s.root].Root? && b in objs
      && (objs[b].Root? ==> b == s.root)
      && (objs[b].Shadow? ==>
        objs[b].below.Some? && objs[b].root == s.root && objs[b].depth < s.depth && s.size <= objs[b].size)
  }

  function Rank(objs: Objs, o: Id): nat
    requires o in objs
  {
    if objs[o].Root? then 0 else objs[o].depth
  }

  /** An object that can be read: not a shadow whose pages have moved away. */
  predicate Live(objs: Objs, o: Id) { o in objs && (objs[o].Shadow? ==> objs[o].below.Some?) }

  /** The first page found on the way down the chain. */
  ghost function View(objs: Objs, o: Id, pg: nat): Page
    requires Linked(objs) && Live(objs, o)
    decreases Rank(objs, o)
  {
    var x := objs[o];
    if pg in x.pages then x.pages[pg]
    else if x.Root? then x.fill(pg)
    else
      assert LinkedAt(objs, o);
      View(objs, x.below.value, pg)
  }

  // ----- Counting -----

  ghost function MapsOn(maps: Maps, o: Id): set<Id> { set m | m in maps && maps[m].obj == o }

  ghost function FlaggedOn(maps: Maps, o: Id): set<Id> { set m | m in maps && maps[m].obj == o && maps[m].flagged }

  ghost function ShadowsOf(objs: Objs, o: Id): set<Id> {
    set x | x in objs && objs[x].Shadow? && objs[x].below == Some(o)
  }

  function Held(x: Obj): nat { if x.Root? then x.held else 0 }

  /** Every reference has an owner. */
  ghost predicate Referenced(st: State) {
    && (forall o {:trigger ReferencedAt(st, o)} | o in st.objs :: ReferencedAt(st, o))
    && (forall o | o in st.loose :: o in st.objs)
  }

  ghost predicate ReferencedAt(st: State, o: Id)
    requires o in st.objs
  {
    st.objs[o].ref == |MapsOn(st.maps, o)| + |ShadowsOf(st.objs, o)| + st.loose[o] + Held(st.objs[o])
  }

  /** demand counts the flagged mappings, kids lists the shadows. */
  ghost predicate Counted(st: State) {
    forall o {:trigger CountedAt(st, o)} | o in st.objs && st.objs[o].Shadow? :: CountedAt(st, o)
  }

  ghost predicate CountedAt(st: State, o: Id)
    requires o in st.objs && st.objs[o].Shadow?
  {
    st.objs[o].demand == |FlaggedOn(st.maps, o)| && Enumerates(st.objs[o].kids, ShadowsOf(st.objs, o))
  }

  ghost predicate Enumerates(s: seq<Id>, t: set<Id>) { NoDup(s) && forall k :: k in s <==> k in t }

  ghost predicate Placed(st: State) {
    forall m {:trigger PlacedAt(st, m)} | m in st.maps :: PlacedAt(st, m)
  }

  ghost predicate PlacedAt(st: State, m: Id)
    requires m in st.maps
  {
    var r := st.maps[m];
    && Live(st.objs, r.obj)
    && (st.objs[r.obj].Shadow? ==> r.limit <= st.objs[r.obj].size)
    && (st.objs[r.obj].Root? && st.objs[r.obj].file ==> r.flagged)
    && (forall pg | pg in r.hw :: !r.flagged && pg in st.objs[r.obj].pages)
  }

  /**
   An unflagged mapping writes its object in place, so nobody else may depend on the object:
   no shadow, no flagged mapping, no mapping of another address space, no overlapping mapping.
   */
  ghost predicate Alone(st: State) {
    forall m {:trigger AloneAt(st, m)} | m in st.maps && !st.maps[m].flagged :: AloneAt(st, m)
  }

  ghost predicate AloneAt(st: State, m: Id)
    requires m in st.maps
  {
    var o := st.maps[m].obj;
    && ShadowsOf(st.objs, o) == {}
    && forall n | n in st.maps && n != m && st.maps[n].obj == o ::
         !st.maps[n].flagged && st.maps[n].vas == st.maps[m].vas && Disjoint(st.maps[n], st.maps[m])
  }

  predicate Disjoint(r: Mapping, s: Mapping) { r.limit <= PAGE * s.first || s.limit <= PAGE * r.first }

  /** The resident pages of a file still hold what the file holds. */
  ghost predicate Clean(objs: Objs) {
    forall o, pg | o in objs && objs[o].Root? && objs[o].file && pg in objs[o].pages ::
      objs[o].pages[pg] == objs[o].fill(pg)
  }

  ghost predicate Inv(st: State) {
    Linked(st.objs) && Referenced(st) && Counted(st) && Placed(st) && Alone(st) && Clean(st.objs)
  }

  /** What a mapping reads at byte a of its object. */
  ghost function ReadByte(st: State, m: Id, a: nat): byte
    requires Linked(st.objs) && m in st.maps && Live(st.objs, st.maps[m].obj)
  {
    View(st.objs, st.maps[m].obj, a / PAGE)[a % PAGE]
  }

  predicate InRange(r: Mapping, a: nat) { PAGE * r.first <= a < r.limit }
}
