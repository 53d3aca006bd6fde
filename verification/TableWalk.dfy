/** Walking page tables: the MMU's translation, the kernel's software walk, and how an edit of one
    entry changes both.
 */
module TableWalk {
  import opened Bits
  import opened Options
  import opened PageTable

  /** Page-table memory: the entries of every table, by physical address. */
  type Tables = map<nat, seq<nat>>

  /** Where a table hangs: its depth and which region of that depth it covers. */
  datatype Place = Place(depth: nat, region: nat)

  predicate HasTable(tables: Tables, t: nat) {
    t in tables && |tables[t]| == ENTRIES
  }

  function SetEntry(tables: Tables, t: nat, i: nat, w: nat): Tables
    requires HasTable(tables, t) && i < ENTRIES
  {
    var entries: seq<nat> := tables[t][i := w];
    tables[t := entries]
  }

  /** The physical address an address translates to, and the access granted there. */
  datatype Hit = Hit(phys: nat, access: Access)

  /** The MMU's walk from table `t` at the given depth: the physical address, if any. */
  function Walk(a: Arch, tables: Tables, t: nat, depth: nat, v: nat): Option<Hit>
    decreases depth
  {
    if !HasTable(tables, t) then None else
      match Decode(a, tables[t][Index(v, depth)], depth)
      case Fault => None
      case Leaf(phys, access) => Some(Hit(phys + v % Size(depth), access))
      case Table(next) => if depth == 0 then None else Walk(a, tables, next, depth - 1, v)
  }

  datatype Reached = At(table: nat) | Missing | Blocked

  /** The kernel's walk to the table at depth `target`: it stops at an invalid entry or a block. */
  function Reach(a: Arch, tables: Tables, t: nat, depth: nat, v: nat, target: nat): Reached
    requires target <= depth
    decreases depth
  {
    if depth == target then At(t)
    else if !HasTable(tables, t) then Missing
    else
      var w := tables[t][Index(v, depth)];
      if !IsValid(w) then Missing
      else if IsBlock(a, w, depth) then Blocked
      else Reach(a, tables, EntryPhys(a, w), depth - 1, v, target)
  }

  /** An entry is invalid, or a leaf where the kernel sees a leaf, or a pointer to the table of its region. */
  predicate EntryOk(a: Arch, w: nat, here: Place, i: nat, tables: Tables, places: map<nat, Place>) {
    IsValid(w) ==>
      if here.depth == 0 || IsBlock(a, w, here.depth) then Decode(a, w, here.depth).Leaf?
      else
        && Decode(a, w, here.depth) == Table(EntryPhys(a, w))
        && EntryPhys(a, w) in tables && EntryPhys(a, w) in places
        && places[EntryPhys(a, w)] == Place(here.depth - 1, ENTRIES * here.region + i)
  }

  /** Every table hangs where `places` says, and leads only to tables of its own subregions. */
  ghost predicate WellPlaced(a: Arch, tables: Tables, places: map<nat, Place>) {
    && places.Keys == tables.Keys
    && (forall t :: t in tables ==> |tables[t]| == ENTRIES)
    && (forall t, i :: t in tables && 0 <= i < ENTRIES ==> EntryOk(a, tables[t][i], places[t], i, tables, places))
  }

  // ---------------------------------------------------------------- regions

  /** The number of the depth-`d` entry that maps the address. */
  function Region(v: nat, depth: nat): nat { Div(v, Size(depth)) }

  lemma RegionSplits(v: nat, depth: nat)
    ensures Region(v, depth) == ENTRIES * Region(v, depth + 1) + Index(v, depth)
  {
    DivDiv(v, Size(depth), ENTRIES);
  }

  lemma {:induction false} RegionWidens(v: nat, u: nat, depth: nat, target: nat)
    requires depth <= target && Region(v, depth) == Region(u, depth)
    ensures Region(v, target) == Region(u, target) && Index(v, depth) == Index(u, depth)
    decreases target - depth
  {
    if depth < target {
      DivDiv(v, Size(depth), ENTRIES);
      DivDiv(u, Size(depth), ENTRIES);
      RegionWidens(v, u, depth + 1, target);
    }
  }

  /** Addresses of one region take the same path down to its table. */
  lemma {:induction false} SamePath(a: Arch, tables: Tables, t: nat, depth: nat, v: nat, u: nat, target: nat)
    requires target <= depth && Region(v, target + 1) == Region(u, target + 1)
    ensures Reach(a, tables, t, depth, v, target) == Reach(a, tables, t, depth, u, target)
    decreases depth
  {
    if depth > target && HasTable(tables, t) {
      RegionWidens(v, u, target + 1, depth);
      RegionWidens(v, u, depth, depth);
      var w := tables[t][Index(v, depth)];
      if IsValid(w) && !IsBlock(a, w, depth) {
        SamePath(a, tables, EntryPhys(a, w), depth - 1, v, u, target);
      }
    }
  }

  /** The kernel's walk ends at the table of the address's own region, and the MMU passes through it. */
  lemma {:induction false} ReachedTable(a: Arch, tables: Tables, places: map<nat, Place>, t: nat, depth: nat, v: nat, target: nat)
    requires WellPlaced(a, tables, places) && target <= depth
    requires t in tables && places[t] == Place(depth, Region(v, depth + 1))
    requires Reach(a, tables, t, depth, v, target).At?
    ensures var r := Reach(a, tables, t, depth, v, target).table;
            && r in tables && places[r] == Place(target, Region(v, target + 1))
            && Walk(a, tables, t, depth, v) == Walk(a, tables, r, target, v)
    decreases depth
  {
    if depth > target {
      var w := tables[t][Index(v, depth)];
      assert EntryOk(a, w, places[t], Index(v, depth), tables, places);
      RegionSplits(v, depth);
      ReachedTable(a, tables, places, EntryPhys(a, w), depth - 1, v, target);
    }
  }

  /** Where the kernel's walk finds nothing the MMU finds nothing either. */
  lemma {:induction false} MissingUnmapped(a: Arch, tables: Tables, places: map<nat, Place>, t: nat, depth: nat, v: nat, target: nat)
    requires WellPlaced(a, tables, places) && target <= depth
    requires t in tables && places[t] == Place(depth, Region(v, depth + 1))
    ensures Reach(a, tables, t, depth, v, target).Missing? ==> Walk(a, tables, t, depth, v) == None
    ensures Reach(a, tables, t, depth, v, target).Blocked? ==> Walk(a, tables, t, depth, v).Some?
    decreases depth
  {
    if depth > target {
      var w := tables[t][Index(v, depth)];
      assert EntryOk(a, w, places[t], Index(v, depth), tables, places);
      RegionSplits(v, depth);
      if IsValid(w) && !IsBlock(a, w, depth) {
        MissingUnmapped(a, tables, places, EntryPhys(a, w), depth - 1, v, target);
      }
    }
  }

  // ---------------------------------------------------------------- edits

  /** `after` has the tables of `before`, perhaps more, and differs at most in entry `i` of table `t`. */
  ghost predicate Edit(before: Tables, after: Tables, t: nat, i: nat) {
    && t in before
    && (forall x :: x in before ==> x in after && |after[x]| == |before[x]|)
    && (forall x, j :: x in before && 0 <= j < |before[x]| && !(x == t && j == i) ==> after[x][j] == before[x][j])
  }

  /** Addresses that the edited entry does not map translate as before. */
  lemma {:induction false} WalkElsewhere(a: Arch, before: Tables, after: Tables, places: map<nat, Place>, t: nat, i: nat, cur: nat, depth: nat, v: nat)
    requires WellPlaced(a, before, places) && Edit(before, after, t, i) && i < ENTRIES
    requires cur in before && places[cur] == Place(depth, Region(v, depth + 1))
    requires Region(v, places[t].depth) != ENTRIES * places[t].region + i
    ensures Walk(a, after, cur, depth, v) == Walk(a, before, cur, depth, v)
    decreases depth
  {
    RegionSplits(v, depth);
    var j := Index(v, depth);
    assert !(cur == t && j == i);
    var w := before[cur][j];
    assert EntryOk(a, w, places[cur], j, before, places);
    if depth > 0 && IsValid(w) && !IsBlock(a, w, depth) {
      WalkElsewhere(a, before, after, places, t, i, EntryPhys(a, w), depth - 1, v);
    } else {
      InvalidFaults(a, w, depth);
    }
  }

  lemma InvalidFaults(a: Arch, w: nat, depth: nat)
    ensures !IsValid(w) ==> Decode(a, w, depth) == Fault
  {
  }

  /** An edit at or below the target depth leaves the path to it alone. */
  lemma {:induction false} PathKept(a: Arch, before: Tables, after: Tables, places: map<nat, Place>, t: nat, i: nat, cur: nat, depth: nat, v: nat, target: nat)
    requires WellPlaced(a, before, places) && Edit(before, after, t, i) && target <= depth
    requires cur in before && places[cur] == Place(depth, Region(v, depth + 1)) && places[t].depth <= target
    ensures Reach(a, after, cur, depth, v, target) == Reach(a, before, cur, depth, v, target)
    decreases depth
  {
    if depth > target {
      var j := Index(v, depth);
      var w := before[cur][j];
      assert EntryOk(a, w, places[cur], j, before, places);
      RegionSplits(v, depth);
      if IsValid(w) && !IsBlock(a, w, depth) {
        PathKept(a, before, after, places, t, i, EntryPhys(a, w), depth - 1, v, target);
      }
    }
  }

  // ---------------------------------------------------------------- the whole address space

  /** The tables form a well-placed tree below the root. */
  ghost predicate SoundTables(a: Arch, tables: Tables, root: nat, places: map<nat, Place>) {
    WellPlaced(a, tables, places) && root in tables && places[root] == Place(Top(a), 0)
  }

  /** The translation of an address: the index bits of both formats lie below the span of the top table. */
  function Translate(a: Arch, tables: Tables, root: nat, v: nat): Option<Hit> {
    Walk(a, tables, root, Top(a), v % Span(a))
  }

  lemma LowRegion(a: Arch, v: nat)
    requires v < Span(a)
    ensures Region(v, Top(a) + 1) == 0
  {
    DivModUnique(v, Span(a), 0, v);
  }

  /** What a terminal entry translates to. */
  function Direct(a: Arch, w: nat, depth: nat, v: nat): Option<Hit> {
    match Decode(a, w, depth)
    case Leaf(phys, access) => Some(Hit(phys + v % Size(depth), access))
    case _ => None
  }

  /** Invalid, or a leaf that the kernel recognises as one. */
  predicate Terminal(a: Arch, w: nat, depth: nat) {
    IsValid(w) ==> Decode(a, w, depth).Leaf? && (depth == 0 || IsBlock(a, w, depth))
  }

  /** Overwriting the terminal entry that maps `va` at the depth changes the translation of exactly the
      addresses of that entry. */
  lemma WriteEntry(a: Arch, tables: Tables, root: nat, places: map<nat, Place>, va: nat, depth: nat, t: nat, w: nat)
    requires SoundTables(a, tables, root, places) && va < Span(a) && depth <= Top(a)
    requires Reach(a, tables, root, Top(a), va, depth) == At(t)
    requires HasTable(tables, t) && Terminal(a, tables[t][Index(va, depth)], depth) && Terminal(a, w, depth)
    ensures var after := SetEntry(tables, t, Index(va, depth), w);
            && SoundTables(a, after, root, places)
            && forall v :: 0 <= v < Span(a) ==>
                 if Region(v, depth) == Region(va, depth)
                 then Walk(a, tables, root, Top(a), v) == Direct(a, tables[t][Index(va, depth)], depth, v)
                      && Walk(a, after, root, Top(a), v) == Direct(a, w, depth, v)
                 else Walk(a, after, root, Top(a), v) == Walk(a, tables, root, Top(a), v)
  {
    var i := Index(va, depth);
    var after := SetEntry(tables, t, i, w);
    LowRegion(a, va);
    ReachedTable(a, tables, places, root, Top(a), va, depth);
    WriteKeepsPlaces(a, tables, places, t, i, w);
    forall v | 0 <= v < Span(a) ensures
      if Region(v, depth) == Region(va, depth)
      then Walk(a, tables, root, Top(a), v) == Direct(a, tables[t][i], depth, v) && Walk(a, after, root, Top(a), v) == Direct(a, w, depth, v)
      else Walk(a, after, root, Top(a), v) == Walk(a, tables, root, Top(a), v)
    {
      LowRegion(a, v);
      RegionSplits(va, depth);
      if Region(v, depth) == Region(va, depth) {
        RegionWidens(v, va, depth, depth + 1);
        SamePath(a, tables, root, Top(a), v, va, depth);
        ReachedTable(a, tables, places, root, Top(a), v, depth);
        PathKept(a, tables, after, places, t, i, root, Top(a), v, depth);
        ReachedTable(a, after, places, root, Top(a), v, depth);
        TerminalWalk(a, tables, t, depth, v);
        TerminalWalk(a, after, t, depth, v);
      } else {
        WalkElsewhere(a, tables, after, places, t, i, root, Top(a), v);
      }
    }
  }

  lemma TerminalWalk(a: Arch, tables: Tables, t: nat, depth: nat, v: nat)
    requires HasTable(tables, t) && Terminal(a, tables[t][Index(v, depth)], depth)
    ensures Walk(a, tables, t, depth, v) == Direct(a, tables[t][Index(v, depth)], depth, v)
  {
    InvalidFaults(a, tables[t][Index(v, depth)], depth);
  }

  lemma WriteKeepsPlaces(a: Arch, tables: Tables, places: map<nat, Place>, t: nat, i: nat, w: nat)
    requires WellPlaced(a, tables, places) && t in tables && i < ENTRIES && Terminal(a, w, places[t].depth)
    ensures WellPlaced(a, SetEntry(tables, t, i, w), places) && Edit(tables, SetEntry(tables, t, i, w), t, i)
  {
    var after := SetEntry(tables, t, i, w);
    forall x, j | x in after && 0 <= j < ENTRIES ensures EntryOk(a, after[x][j], places[x], j, after, places) {
      assert EntryOk(a, tables[x][j], places[x], j, tables, places);
    }
  }

  /** Hanging a fresh, empty table under an invalid entry changes no translation and extends the path. */
  lemma WriteTable(a: Arch, tables: Tables, root: nat, places: map<nat, Place>, va: nat, depth: nat, t: nat, n: nat, empty: seq<nat>)
    requires SoundTables(a, tables, root, places) && va < Span(a) && 0 < depth <= Top(a)
    requires Reach(a, tables, root, Top(a), va, depth) == At(t)
    requires HasTable(tables, t) && !IsValid(tables[t][Index(va, depth)])
    requires n !in tables && n % 4096 == 0 && n < PhysLimit(a)
    requires |empty| == ENTRIES && forall j :: 0 <= j < ENTRIES ==> empty[j] == 0
    ensures var after := SetEntry(tables, t, Index(va, depth), MakeTable(a, n))[n := empty];
            && SoundTables(a, after, root, places[n := Place(depth - 1, Region(va, depth))])
            && Reach(a, after, root, Top(a), va, depth - 1) == At(n)
            && forall v :: 0 <= v < Span(a) ==> Walk(a, after, root, Top(a), v) == Walk(a, tables, root, Top(a), v)
  {
    var i, w := Index(va, depth), MakeTable(a, n);
    var after := SetEntry(tables, t, i, w)[n := empty];
    var places' := places[n := Place(depth - 1, Region(va, depth))];
    MadeTable(a, n, depth);
    LowRegion(a, va);
    RegionSplits(va, depth);
    ReachedTable(a, tables, places, root, Top(a), va, depth);
    TableKeepsPlaces(a, tables, places, t, i, n, empty, after, places');
    PathKept(a, tables, after, places, t, i, root, Top(a), va, depth);
    ReachOneMore(a, after, root, Top(a), va, depth);
    forall v | 0 <= v < Span(a) ensures Walk(a, after, root, Top(a), v) == Walk(a, tables, root, Top(a), v) {
      LowRegion(a, v);
      if Region(v, depth) == Region(va, depth) {
        RegionWidens(v, va, depth, depth + 1);
        SamePath(a, tables, root, Top(a), v, va, depth);
        ReachedTable(a, tables, places, root, Top(a), v, depth);
        PathKept(a, tables, after, places, t, i, root, Top(a), v, depth);
        ReachedTable(a, after, places', root, Top(a), v, depth);
        TerminalWalk(a, tables, t, depth, v);
        InvalidFaults(a, tables[t][i], depth);
        TerminalWalk(a, after, n, depth - 1, v);
        InvalidFaults(a, 0, depth - 1);
      } else {
        WalkElsewhere(a, tables, after, places, t, i, root, Top(a), v);
      }
    }
  }

  lemma TableKeepsPlaces(a: Arch, tables: Tables, places: map<nat, Place>, t: nat, i: nat, n: nat, empty: seq<nat>, after: Tables, places': map<nat, Place>)
    requires WellPlaced(a, tables, places) && t in tables && i < ENTRIES && places[t].depth > 0
    requires n !in tables && |empty| == ENTRIES && forall j :: 0 <= j < ENTRIES ==> empty[j] == 0
    requires after == SetEntry(tables, t, i, MakeTable(a, n))[n := empty]
    requires places' == places[n := Place(places[t].depth - 1, ENTRIES * places[t].region + i)]
    requires var w := MakeTable(a, n); !IsBlock(a, w, places[t].depth) && Decode(a, w, places[t].depth) == Table(n) && EntryPhys(a, w) == n
    ensures WellPlaced(a, after, places') && Edit(tables, after, t, i)
  {
    hide Decode;
    hide IsBlock;
    hide EntryPhys;
    hide MakeTable;
    forall x, j | x in after && 0 <= j < ENTRIES ensures EntryOk(a, after[x][j], places'[x], j, after, places') {
      if x != n && !(x == t && j == i) { assert EntryOk(a, tables[x][j], places[x], j, tables, places); }
    }
  }

  /** The walk goes one table further through a table entry. */
  lemma {:induction false} ReachOneMore(a: Arch, tables: Tables, cur: nat, depth: nat, v: nat, target: nat)
    requires 0 < target <= depth && Reach(a, tables, cur, depth, v, target).At?
    ensures var t := Reach(a, tables, cur, depth, v, target).table;
            HasTable(tables, t) ==>
              var w := tables[t][Index(v, target)];
              Reach(a, tables, cur, depth, v, target - 1) ==
              if !IsValid(w) then Missing else if IsBlock(a, w, target) then Blocked else At(EntryPhys(a, w))
    decreases depth
  {
    if depth > target {
      ReachOneMore(a, tables, EntryPhys(a, tables[cur][Index(v, depth)]), depth - 1, v, target);
    }
  }

  /** A walk that gets no further than depth `d` gets no further. */
  lemma {:induction false} ReachStops(a: Arch, tables: Tables, cur: nat, depth: nat, v: nat, d: nat, target: nat)
    requires target < d <= depth && Reach(a, tables, cur, depth, v, d).At? && !Reach(a, tables, cur, depth, v, d - 1).At?
    ensures Reach(a, tables, cur, depth, v, target) == Reach(a, tables, cur, depth, v, d - 1)
    decreases depth
  {
    if depth > d {
      ReachStops(a, tables, EntryPhys(a, tables[cur][Index(v, depth)]), depth - 1, v, d, target);
    }
  }

  // ---------------------------------------------------------------- entries in use

  /** The kernel's walk to the depth meets a block, or finds the entry there valid. */
  predicate EntryTaken(a: Arch, tables: Tables, root: nat, v: nat, depth: nat)
    requires depth <= Top(a)
  {
    var r := Reach(a, tables, root, Top(a), v, depth);
    r.Blocked? || (r.At? && HasTable(tables, r.table) && IsValid(tables[r.table][Index(v, depth)]))
  }

  /** An edit of an entry that does not map the address leaves the kernel's walk alone. */
  lemma {:induction false} ReachElsewhere(a: Arch, before: Tables, after: Tables, places: map<nat, Place>, t: nat, i: nat, cur: nat, depth: nat, v: nat, target: nat)
    requires WellPlaced(a, before, places) && Edit(before, after, t, i) && i < ENTRIES && target <= depth
    requires cur in before && places[cur] == Place(depth, Region(v, depth + 1))
    requires Region(v, places[t].depth) != ENTRIES * places[t].region + i
    ensures Reach(a, after, cur, depth, v, target) == Reach(a, before, cur, depth, v, target)
    decreases depth
  {
    if depth > target {
      RegionSplits(v, depth);
      var j := Index(v, depth);
      assert !(cur == t && j == i);
      var w := before[cur][j];
      assert EntryOk(a, w, places[cur], j, before, places);
      if IsValid(w) && !IsBlock(a, w, depth) {
        ReachElsewhere(a, before, after, places, t, i, EntryPhys(a, w), depth - 1, v, target);
      }
    }
  }

  lemma TakenElsewhere(a: Arch, before: Tables, after: Tables, root: nat, places: map<nat, Place>, t: nat, i: nat, v: nat, depth: nat)
    requires SoundTables(a, before, root, places) && Edit(before, after, t, i) && i < ENTRIES && depth <= Top(a) && v < Span(a)
    requires Region(v, places[t].depth) != ENTRIES * places[t].region + i
    ensures EntryTaken(a, after, root, v, depth) == EntryTaken(a, before, root, v, depth)
  {
    LowRegion(a, v);
    ReachElsewhere(a, before, after, places, t, i, root, Top(a), v, depth);
    if Reach(a, before, root, Top(a), v, depth).At? {
      ReachedTable(a, before, places, root, Top(a), v, depth);
      RegionSplits(v, depth);
    }
  }

  /** Writing a terminal entry takes or frees no entry of another block. */
  lemma EntryElsewhere(a: Arch, tables: Tables, root: nat, places: map<nat, Place>, va: nat, depth: nat, t: nat, w: nat, v: nat, d: nat)
    requires SoundTables(a, tables, root, places) && va < Span(a) && depth <= Top(a)
    requires Reach(a, tables, root, Top(a), va, depth) == At(t) && HasTable(tables, t)
    requires v < Span(a) && d <= Top(a) && Region(v, depth) != Region(va, depth)
    ensures EntryTaken(a, SetEntry(tables, t, Index(va, depth), w), root, v, d) == EntryTaken(a, tables, root, v, d)
  {
    LowRegion(a, va);
    ReachedTable(a, tables, places, root, Top(a), va, depth);
    RegionSplits(va, depth);
    TakenElsewhere(a, tables, SetEntry(tables, t, Index(va, depth), w), root, places, t, Index(va, depth), v, d);
  }

  /** Hanging an empty table takes no entry but those that contain the address. */
  lemma TableElsewhere(a: Arch, tables: Tables, root: nat, places: map<nat, Place>, va: nat, depth: nat, t: nat, n: nat, empty: seq<nat>, v: nat, d: nat)
    requires SoundTables(a, tables, root, places) && va < Span(a) && 0 < depth <= Top(a)
    requires Reach(a, tables, root, Top(a), va, depth) == At(t)
    requires HasTable(tables, t) && !IsValid(tables[t][Index(va, depth)])
    requires n !in tables && n % 4096 == 0 && n < PhysLimit(a)
    requires |empty| == ENTRIES && forall j :: 0 <= j < ENTRIES ==> empty[j] == 0
    requires v < Span(a) && d <= Top(a) && Region(v, d) != Region(va, d)
    ensures EntryTaken(a, SetEntry(tables, t, Index(va, depth), MakeTable(a, n))[n := empty], root, v, d) == EntryTaken(a, tables, root, v, d)
  {
    hide Decode;
    hide MakeTable;
    hide EntryOk;
    var i := Index(va, depth);
    var after := SetEntry(tables, t, i, MakeTable(a, n))[n := empty];
    LowRegion(a, va);
    ReachedTable(a, tables, places, root, Top(a), va, depth);
    RegionSplits(va, depth);
    if Region(v, depth) != Region(va, depth) {
      TakenElsewhere(a, tables, after, root, places, t, i, v, d);
    } else {
      UnderNewTable(a, tables, root, places, va, depth, t, n, empty, v, d);
    }
  }

  /** Below a missing table nothing is taken, nor below an empty one put there. */
  lemma UnderNewTable(a: Arch, tables: Tables, root: nat, places: map<nat, Place>, va: nat, depth: nat, t: nat, n: nat, empty: seq<nat>, v: nat, d: nat)
    requires SoundTables(a, tables, root, places) && va < Span(a) && 0 < depth <= Top(a)
    requires Reach(a, tables, root, Top(a), va, depth) == At(t)
    requires HasTable(tables, t) && !IsValid(tables[t][Index(va, depth)])
    requires n !in tables && n % 4096 == 0 && n < PhysLimit(a)
    requires |empty| == ENTRIES && forall j :: 0 <= j < ENTRIES ==> empty[j] == 0
    requires v < Span(a) && d <= Top(a) && Region(v, d) != Region(va, d) && Region(v, depth) == Region(va, depth)
    ensures !EntryTaken(a, tables, root, v, d)
    ensures !EntryTaken(a, SetEntry(tables, t, Index(va, depth), MakeTable(a, n))[n := empty], root, v, d)
  {
    hide Decode;
    hide EntryOk;
    hide WellPlaced;
    var after := SetEntry(tables, t, Index(va, depth), MakeTable(a, n))[n := empty];
    if d >= depth { RegionWidens(v, va, depth, d); }
    RegionWidens(v, va, depth, depth + 1);
    SamePath(a, tables, root, Top(a), v, va, depth);
    ReachOneMore(a, tables, root, Top(a), v, depth);
    ReachStops(a, tables, root, Top(a), v, depth, d);
    WriteTable(a, tables, root, places, va, depth, t, n, empty);
    SamePath(a, after, root, Top(a), v, va, depth - 1);
    if d < depth - 1 {
      ReachOneMore(a, after, root, Top(a), v, depth - 1);
      ReachStops(a, after, root, Top(a), v, depth - 1, d);
    }
  }
}
