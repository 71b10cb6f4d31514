/** The conversions between JSON values and Lua values, as programs on the Lua stack,
    and the recursive functions that they refine. */
module LuaUtils {
  import opened Json
  import opened Lua

  // ----- JSON to Lua -----

  /** A Lua value with the tables it reaches, seen as one tree. */
  datatype Deep =
    | DNil
    | DBoolean(b: bool)
    | DNumber(n: real)
    | DText(s: string)
    | DTable(entries: map<Value, Deep>)

  function AssignDeep(entries: map<Value, Deep>, key: Value, d: Deep): map<Value, Deep> {
    if d.DNil? then entries - {key} else entries[key := d]
  }

  /** `v` is what Lua gets of a value that is neither array nor object: nil for null, the
      boolean, the number (an integer modulo 2^32, signed or unsigned as it is, a float
      narrowed), the string before its first NUL. */
  predicate Means(env: Env, j: Json, v: Value) {
    match j
    case Null => v == Nil
    case Bool(b) => v == Boolean(b)
    case Int(i) =>
      v.Number? && var n := v.n.Floor;
      v.n == n as real && -0x8000_0000 <= n < 0x8000_0000 && (n - i) % TWO_TO_THE_32 == 0
    case Unsigned(u) =>
      v.Number? && var n := v.n.Floor;
      v.n == n as real && 0 <= n < TWO_TO_THE_32 && (n - u) % TWO_TO_THE_32 == 0
    case Float(r) => v == Number(env.narrow(r))
    case Str(s) => v.Text? && Cut(s, v.s)
    case _ => false
  }

  /** What a JSON value means in Lua. Integers are cut to 32 bits, floats narrowed,
      strings cut at a NUL; objects and arrays are filled member by member, where a
      null assigns nil. */
  function Denote(env: Env, j: Json): Deep
    requires Sane(env)
    decreases j, 1
  {
    match j
    case Null => DNil
    case Bool(b) => DBoolean(b)
    case Int(i) => DNumber(ToInt32(i) as real)
    case Unsigned(u) => DNumber(ToUInt32(u) as real)
    case Float(r) => DNumber(env.narrow(r))
    case Str(s) => DText(CStr(s))
    case Arr(elems) => DTable(DenoteElems(env, j, |elems|))
    case Obj(members) => DTable(DenoteMembers(env, j, |env.items(members.Keys)|))
  }

  /** The table after the first `n` elements. */
  function DenoteElems(env: Env, j: Json, n: nat): map<Value, Deep>
    requires Sane(env) && j.Arr? && n <= |j.elems|
    decreases j, 0, n
  {
    if n == 0 then map[]
    else AssignDeep(DenoteElems(env, j, n - 1), ArrayKey(n - 1), Denote(env, j.elems[n - 1]))
  }

  /** The key of the i-th member visited. */
  function ItemKey(env: Env, members: map<string, Json>, i: nat): (key: string)
    requires Sane(env) && i < |env.items(members.Keys)|
    ensures key in members
  {
    assert Enumerates(env.items(members.Keys), members.Keys);
    env.items(members.Keys)[i]
  }

  /** The table after the first `n` members. */
  function DenoteMembers(env: Env, j: Json, n: nat): map<Value, Deep>
    requires Sane(env) && j.Obj? && n <= |env.items(j.members.Keys)|
    decreases j, 0, n
  {
    if n == 0 then map[]
    else
      var key := ItemKey(env, j.members, n - 1);
      AssignDeep(DenoteMembers(env, j, n - 1), Text(CStr(key)), Denote(env, j.members[key]))
  }

  // ----- what is on the heap -----

  /** In this heap `v` is the tree `d`, made of tables with ids from `low` up only. */
  ghost predicate Represents(tables: map<nat, Entries>, low: nat, v: Value, d: Deep)
    decreases d
  {
    match d
    case DNil => v == Nil
    case DBoolean(b) => v == Boolean(b)
    case DNumber(n) => v == Number(n)
    case DText(s) => v == Text(s)
    case DTable(entries) =>
      && v.Table? && v.id >= low && v.id in tables
      && tables[v.id].Keys == entries.Keys
      && forall k | k in entries :: Represents(tables, v.id + 1, tables[v.id][k], entries[k])
  }

  /** It stays so when lower tables change and when the bound is lowered. */
  lemma {:induction false} RepresentsFrame(before: map<nat, Entries>, after: map<nat, Entries>,
                                           low: nat, low': nat, v: Value, d: Deep)
    requires Represents(before, low, v, d) && low' <= low
    requires forall id | id in before && id >= low :: id in after && after[id] == before[id]
    ensures Represents(after, low', v, d)
    decreases d
  {
    if d.DTable? {
      forall k | k in d.entries ensures Represents(after, v.id + 1, after[v.id][k], d.entries[k]) {
        RepresentsFrame(before, after, v.id + 1, v.id + 1, before[v.id][k], d.entries[k]);
      }
    }
  }

  lemma AssignRepresents(tables: map<nat, Entries>, id: nat, entries: map<Value, Deep>, key: Value, v: Value, d: Deep)
    requires Represents(tables, id, Table(id), DTable(entries))
    requires Represents(tables, id + 1, v, d)
    ensures Represents(tables[id := Assign(tables[id], key, v)], id, Table(id), DTable(AssignDeep(entries, key, d)))
  {
    var after := tables[id := Assign(tables[id], key, v)];
    var entries' := AssignDeep(entries, key, d);
    assert v.Nil? <==> d.DNil?;
    assert after[id].Keys == entries'.Keys;
    forall k | k in entries' ensures Represents(after, id + 1, after[id][k], entries'[k]) {
      if k == key && !d.DNil? {
        RepresentsFrame(tables, after, id + 1, id + 1, v, d);
      } else {
        RepresentsFrame(tables, after, id + 1, id + 1, tables[id][k], entries[k]);
      }
    }
  }

  /** Every table of the old heap is in the new one, unchanged. */
  ghost predicate Extends(before: map<nat, Entries>, after: map<nat, Entries>) {
    forall id | id in before :: id in after && after[id] == before[id]
  }

  /** `lua_json_to_value`, for JSON of any nesting: the stack grows by one slot, all
      below it and every table there was stay as they were, and the new slot is the
      denoted value, made of new tables only. */
  method JsonToValue(L: LuaState, j: Json)
    requires L.Valid()
    modifies L
    ensures L.Valid()
    ensures Pushed(L, old(L.stack), old(L.tables), old(L.nextId), Denote(L.env, j))
    ensures j.Scalar() ==> Means(L.env, j, L.stack[|old(L.stack)|])
    ensures !j.Scalar() ==> L.stack[|old(L.stack)|].Table?
    decreases j, 2
  {
    match j {
      case Null => L.Push(Nil);
      case Bool(b) => L.Push(Boolean(b));
      case Int(i) => L.Push(Number(ToInt32(i) as real));
      case Unsigned(u) => L.Push(Number(ToUInt32(u) as real));
      case Float(r) => L.Push(Number(L.env.narrow(r)));
      case Str(s) => L.PushString(s);
      case Obj(members) => ObjectToValue(L, j);
      case Arr(elems) => ArrayToValue(L, j);
    }
  }

  /** The stack there was plus one slot, which holds `d` in new tables only. */
  ghost predicate Pushed(L: LuaState, stack: seq<Value>, heap: map<nat, Entries>, nextId: nat, d: Deep)
    reads L
  {
    && |L.stack| == |stack| + 1 && L.stack[..|stack|] == stack
    && Extends(heap, L.tables) && L.nextId >= nextId
    && Represents(L.tables, nextId, L.stack[|stack|], d)
  }

  method ObjectToValue(L: LuaState, j: Json)
    requires L.Valid() && j.Obj?
    modifies L
    ensures L.Valid()
    ensures Pushed(L, old(L.stack), old(L.tables), old(L.nextId),
                   DTable(DenoteMembers(L.env, j, |L.env.items(j.members.Keys)|)))
    decreases j, 1
  {
    ghost var stack, heap, base := L.stack, L.tables, L.nextId;
    StartTable(L);
    var keys := L.env.items(j.members.Keys);
    var i := 0;
    while i < |keys|
      invariant 0 <= i <= |keys| && L.Valid()
      invariant TableOnTop(L, stack, heap, base, DenoteMembers(L.env, j, i))
    {
      AddMember(L, j, i, stack, heap, base);
      i := i + 1;
    }
    TableIsPushed(L, stack, heap, base, DenoteMembers(L.env, j, i));
  }

  method ArrayToValue(L: LuaState, j: Json)
    requires L.Valid() && j.Arr?
    modifies L
    ensures L.Valid()
    ensures Pushed(L, old(L.stack), old(L.tables), old(L.nextId), DTable(DenoteElems(L.env, j, |j.elems|)))
    decreases j, 1
  {
    ghost var stack, heap, base := L.stack, L.tables, L.nextId;
    StartTable(L);
    var i := 0;
    while i < |j.elems|
      invariant 0 <= i <= |j.elems| && L.Valid()
      invariant TableOnTop(L, stack, heap, base, DenoteElems(L.env, j, i))
    {
      AddElement(L, j, i, stack, heap, base);
      i := i + 1;
    }
    TableIsPushed(L, stack, heap, base, DenoteElems(L.env, j, i));
  }

  /** One round of the object loop. */
  method AddMember(L: LuaState, j: Json, i: nat, ghost stack: seq<Value>, ghost heap: map<nat, Entries>,
                   ghost base: nat)
    requires L.Valid() && j.Obj? && i < |L.env.items(j.members.Keys)|
    requires TableOnTop(L, stack, heap, base, DenoteMembers(L.env, j, i))
    modifies L
    ensures L.Valid()
    ensures TableOnTop(L, stack, heap, base, DenoteMembers(L.env, j, i + 1))
    decreases j, 0
  {
    var key := ItemKey(L.env, j.members, i);
    L.PushString(key);
    ConvertEntry(L, j.members[key], stack, heap, base, DenoteMembers(L.env, j, i), Text(CStr(key)));
  }

  /** One round of the array loop. */
  method AddElement(L: LuaState, j: Json, i: nat, ghost stack: seq<Value>, ghost heap: map<nat, Entries>,
                    ghost base: nat)
    requires L.Valid() && j.Arr? && i < |j.elems|
    requires TableOnTop(L, stack, heap, base, DenoteElems(L.env, j, i))
    modifies L
    ensures L.Valid()
    ensures TableOnTop(L, stack, heap, base, DenoteElems(L.env, j, i + 1))
    decreases j, 0
  {
    L.Push(ArrayKey(i));
    ConvertEntry(L, j.elems[i], stack, heap, base, DenoteElems(L.env, j, i), ArrayKey(i));
  }

  lemma TableIsPushed(L: LuaState, stack: seq<Value>, heap: map<nat, Entries>, base: nat, entries: map<Value, Deep>)
    requires TableOnTop(L, stack, heap, base, entries)
    ensures Pushed(L, stack, heap, base, DTable(entries))
  {
  }

  method StartTable(L: LuaState)
    requires L.Valid()
    modifies L
    ensures L.Valid()
    ensures TableOnTop(L, old(L.stack), old(L.tables), old(L.nextId), map[])
  {
    L.NewTable();
  }

  /** On top of the stack there was lies the new table `base`, filled so far with
      `entries`; the heap there was is intact below it. */
  ghost predicate TableOnTop(L: LuaState, bottom: seq<Value>, heap: map<nat, Entries>, base: nat,
                             entries: map<Value, Deep>)
    reads L
  {
    && L.stack == bottom + [Table(base)]
    && L.nextId > base
    && Extends(heap, L.tables) && (forall id | id in heap :: id < base)
    && Represents(L.tables, base, Table(base), DTable(entries))
  }

  /** With a key above the table: convert the value, then `lua_settable(L, -3)`. */
  method ConvertEntry(L: LuaState, j: Json, ghost bottom: seq<Value>, ghost heap: map<nat, Entries>, ghost base: nat,
                      ghost entries: map<Value, Deep>, ghost key: Value)
    requires L.Valid() && L.stack == bottom + [Table(base), key] && !key.Nil?
    requires L.nextId > base && Extends(heap, L.tables) && (forall id | id in heap :: id < base)
    requires Represents(L.tables, base, Table(base), DTable(entries))
    modifies L
    ensures L.Valid() && L.nextId >= old(L.nextId)
    ensures TableOnTop(L, bottom, heap, base, AssignDeep(entries, key, Denote(L.env, j)))
    decreases j, 3
  {
    ghost var tables, nextId, stack, d := L.tables, L.nextId, L.stack, Denote(L.env, j);
    JsonToValue(L, j);
    ghost var v := L.stack[|stack|];
    EntryConverted(tables, L.tables, base, nextId, entries, v, d);
    AssignRepresents(L.tables, base, entries, key, v, d);
    assert L.stack == stack + [v] == bottom + [Table(base), key, v];
    StoreEntry(L, bottom, base, key, v);
  }

  /** Converting the value changed nothing in the table under construction. */
  lemma EntryConverted(before: map<nat, Entries>, after: map<nat, Entries>, base: nat, nextId: nat,
                       entries: map<Value, Deep>, v: Value, d: Deep)
    requires nextId > base && Extends(before, after)
    requires Represents(before, base, Table(base), DTable(entries)) && Represents(after, nextId, v, d)
    ensures Represents(after, base, Table(base), DTable(entries))
    ensures Represents(after, base + 1, v, d)
  {
    RepresentsFrame(before, after, base, base, Table(base), DTable(entries));
    RepresentsFrame(after, after, nextId, base + 1, v, d);
  }

  /** `lua_settable(L, -3)` with the table below its new key and value. */
  method StoreEntry(L: LuaState, ghost bottom: seq<Value>, ghost base: nat, ghost key: Value, ghost v: Value)
    requires L.Valid() && L.stack == bottom + [Table(base), key, v] && !key.Nil?
    modifies L
    ensures L.Valid() && L.nextId == old(L.nextId)
    ensures L.stack == bottom + [Table(base)]
    ensures base in old(L.tables) && L.tables == old(L.tables)[base := Assign(old(L.tables)[base], key, v)]
  {
    L.SetTable(-3);
  }
}
