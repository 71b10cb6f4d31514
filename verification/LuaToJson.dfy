/** `lua_value_to_json`: a recursive program with `lua_next` loops. */
module LuaToJson {
  import opened Json
  import opened Wrappers
  import opened Lua
  import opened LuaTable
  import opened Walks

  /** `lua_value_to_json`, where it ends at all. Both loops return the stack to what it
      was; a Lua error can leave it anyhow. The indices are those the source uses: a
      positive one, or -1. */
  method ValueToJson(L: LuaState, index: int) returns (r: Outcome<Json>)
    requires L.Valid()
    requires (index > 0 || index == -1) && L.Acceptable(index)
    requires index > 0 && L.At(index).Table? ==> Ends(L.env, L.tables[L.At(index).id])
    modifies L`stack
    ensures L.Valid()
    ensures r == Read(L.env, L.tables, old(L.At(index)), index > 0)
    ensures !old(L.At(index)).Table? ==> r.Returns? && Says(r.value, old(L.At(index)))
    ensures old(L.At(index)).Table? ==>
              if index > 0 then r.Returns? ==> TableSays(L.env, L.tables[old(L.At(index)).id], r.value) else r.Throws?
    ensures r.Returns? ==> L.stack == old(L.stack)
    decreases if index > 0 then 1 else 0, 2
  {
    var v := L.At(index);
    match v {
      case Table(id) =>
        ghost var bottom := L.stack;
        L.Push(Number(1.0));
        var indexed := L.GetTable(index);
        if indexed.Throws? {
          return Throws;
        }
        var isObject := L.At(-1).Nil?;
        L.Pop(1);
        L.Push(Nil);
        assert L.stack == bottom + [Nil];
        ReadTableSays(L.env, L.tables[id]);
        if isObject {
          r := ReadObject(L, index, bottom, id);
        } else {
          r := ReadArray(L, index, bottom, id);
        }
      case _ =>
        ScalarSays(v);
        return Returns(ReadScalar(v));
    }
  }

  /** The state at the head of a `lua_next` loop over table `id`, where `next` is what
      `lua_next` answered. */
  ghost predicate AtPlace(L: LuaState, bottom: seq<Value>, id: nat, place: Place, next: Outcome<bool>)
    requires Sane(L.env)
    reads L
  {
    id in L.tables &&
    var entries := L.tables[id];
    match place
    case At(i) =>
      && i < |entries.Keys| && next == Returns(true)
      && Order(L.env, entries)[i] in entries
      && L.stack == bottom + [Order(L.env, entries)[i], entries[Order(L.env, entries)[i]]]
    case End => next == Returns(false) && L.stack == bottom
    case Error => next == Throws
  }

  /** `lua_next` with the nil of the first call on top. */
  method FirstKey(L: LuaState, index: int, ghost bottom: seq<Value>, ghost id: nat) returns (next: Outcome<bool>)
    requires L.Valid() && id in L.tables && 0 < index <= |bottom| && bottom[index - 1] == Table(id)
    requires L.stack == bottom + [Nil]
    modifies L`stack
    ensures L.Valid() && AtPlace(L, bottom, id, Onto(|L.tables[id].Keys|, 0), next)
  {
    assert Order(L.env, L.tables[id]) == L.env.order(L.tables[id].Keys);
    next := L.Next(index);
  }

  /** `lua_next` with a key on top, which the table may not have. */
  method KeyAfter(L: LuaState, index: int, ghost bottom: seq<Value>, ghost id: nat, ghost key: Value)
    returns (next: Outcome<bool>)
    requires L.Valid() && id in L.tables && 0 < index <= |bottom| && bottom[index - 1] == Table(id)
    requires L.stack == bottom + [key] && !key.Nil?
    modifies L`stack
    ensures L.Valid() && AtPlace(L, bottom, id, Following(L.env, L.tables[id], key), next)
  {
    assert Order(L.env, L.tables[id]) == L.env.order(L.tables[id].Keys);
    next := L.Next(index);
  }

  /** A key and its value on top: `luaL_checkstring(L, -2)`, convert the value, pop it.
      The key stays, as a string. */
  method ReadMember(L: LuaState, ghost bottom: seq<Value>, ghost k: Value, ghost v: Value)
    returns (r: Outcome<(string, Json)>)
    requires L.Valid()
    requires L.stack == bottom + [k, v]
    modifies L`stack
    ensures L.Valid()
    ensures r.Throws? <==> !Form(L.env, k).Text? || v.Table?
    ensures r.Returns? ==>
              && L.stack == bottom + [Form(L.env, k)]
              && r.value == (CStr(Form(L.env, k).s), ReadScalar(v))
    decreases 0, 3
  {
    var key := L.CheckString(-2);
    if key.Throws? {
      return Throws;
    }
    assert L.stack == bottom + [Form(L.env, k), v];
    var value := ValueToJson(L, -1);
    if value.Throws? {
      return Throws;
    }
    L.Pop(1);
    return Returns((key.value, value.value));
  }

  /** A key and its value on top: convert the value and pop it. */
  method ReadElement(L: LuaState, ghost bottom: seq<Value>, ghost k: Value, ghost v: Value) returns (r: Outcome<Json>)
    requires L.Valid()
    requires L.stack == bottom + [k, v]
    modifies L`stack
    ensures L.Valid()
    ensures r == if v.Table? then Throws else Returns(ReadScalar(v))
    ensures r.Returns? ==> L.stack == bottom + [k]
    decreases 0, 3
  {
    r := ValueToJson(L, -1);
    if r.Returns? {
      L.Pop(1);
    }
  }

  /** The values of the first `i` keys, none of them a table, pushed back in order. */
  ghost predicate ArraySoFar(env: Env, entries: Entries, i: nat, json: seq<Json>)
    requires Sane(env)
  {
    var order := Order(env, entries);
    && i <= |order|
    && (forall k | k in order[..i] :: k in entries && !entries[k].Table?)
    && json == ArrayOf(entries, order[..i])
  }

  lemma ArrayStep(env: Env, entries: Entries, i: nat, json: seq<Json>)
    requires Sane(env) && ArraySoFar(env, entries, i, json)
    requires i < |entries.Keys| && Order(env, entries)[i] in entries && !entries[Order(env, entries)[i]].Table?
    ensures ArraySoFar(env, entries, i + 1, json + [ReadScalar(entries[Order(env, entries)[i]])])
  {
    var order := Order(env, entries);
    assert order[..i + 1] == order[..i] + [order[i]];
  }

  /** When all keys are done, what has been read is what the table converts to. */
  lemma ArrayDone(env: Env, entries: Entries, json: seq<Json>)
    requires Sane(env) && ArraySoFar(env, entries, |entries.Keys|, json) && Number(1.0) in entries
    ensures ReadTable(env, entries) == Returns(Arr(json))
  {
    var order := Order(env, entries);
    assert order[..|order|] == order;
  }

  lemma StillGoing(env: Env, entries: Entries, n: nat)
    requires Sane(env) && Ends(env, entries) && Number(1.0) !in entries
    requires n <= |entries.Keys| && PlaceAfter(env, entries, n).At?
    ensures n < |entries.Keys|
  {
  }

  /** The object loop. As long as it goes on, fewer rounds than keys have been made. */
  method ReadObject(L: LuaState, index: int, ghost bottom: seq<Value>, ghost id: nat) returns (r: Outcome<Json>)
    requires L.Valid() && 0 < index <= |bottom| && bottom[index - 1] == Table(id)
    requires L.stack == bottom + [Nil] && id in L.tables
    requires Ends(L.env, L.tables[id]) && Number(1.0) !in L.tables[id]
    modifies L`stack
    ensures L.Valid()
    ensures r == ReadTable(L.env, L.tables[id])
    ensures r.Returns? ==> L.stack == bottom
    decreases 1, 0
  {
    ghost var entries := L.tables[id];
    var obj: map<string, Json> := map[];
    ghost var n := 0;
    var next := FirstKey(L, index, bottom, id);
    while next == Returns(true)
      invariant L.Valid() && n <= |entries.Keys|
      invariant AtPlace(L, bottom, id, PlaceAfter(L.env, entries, n), next)
      invariant next.Returns? ==> obj == ObjectAfter(L.env, entries, n)
      decreases |entries.Keys| - n
    {
      StillGoing(L.env, entries, n);
      next, obj := MemberRound(L, index, bottom, id, n, obj);
      n := n + 1;
    }
    ReadDone(L.env, entries, n);
    if next.Throws? {
      return Throws;
    }
    return Returns(Obj(obj));
  }

  /** The body of the object loop and the `lua_next` that ends it; any Lua error on the
      way is the outcome. */
  method MemberRound(L: LuaState, index: int, ghost bottom: seq<Value>, ghost id: nat, ghost n: nat,
                     obj: map<string, Json>)
    returns (next: Outcome<bool>, obj': map<string, Json>)
    requires L.Valid() && 0 < index <= |bottom| && bottom[index - 1] == Table(id)
    requires id in L.tables && AtPlace(L, bottom, id, PlaceAfter(L.env, L.tables[id], n), Returns(true))
    requires obj == ObjectAfter(L.env, L.tables[id], n)
    modifies L`stack
    ensures L.Valid()
    ensures AtPlace(L, bottom, id, PlaceAfter(L.env, L.tables[id], n + 1), next)
    ensures next.Returns? ==> obj' == ObjectAfter(L.env, L.tables[id], n + 1)
    decreases 0, 4
  {
    ghost var entries := L.tables[id];
    ghost var k := Order(L.env, entries)[PlaceAfter(L.env, entries, n).i];
    obj' := obj;
    var member := ReadMember(L, bottom, k, entries[k]);
    if member.Throws? {
      return Throws, obj;
    }
    obj' := obj[member.value.0 := member.value.1];
    next := KeyAfter(L, index, bottom, id, Form(L.env, k));
  }

  method ReadArray(L: LuaState, index: int, ghost bottom: seq<Value>, ghost id: nat) returns (r: Outcome<Json>)
    requires L.Valid() && 0 < index <= |bottom| && bottom[index - 1] == Table(id)
    requires L.stack == bottom + [Nil] && id in L.tables
    requires Number(1.0) in L.tables[id]
    modifies L`stack
    ensures L.Valid()
    ensures r == ReadTable(L.env, L.tables[id])
    ensures r.Returns? ==> L.stack == bottom
    decreases 1, 0
  {
    ghost var entries := L.tables[id];
    var json: seq<Json> := [];
    ghost var i := 0;
    var next := FirstKey(L, index, bottom, id);
    while next == Returns(true)
      invariant L.Valid() && i <= |entries.Keys|
      invariant next.Throws? ==> ReadTable(L.env, entries) == Throws
      invariant next.Returns? ==>
                  && AtPlace(L, bottom, id, Onto(|entries.Keys|, i), next)
                  && ArraySoFar(L.env, entries, i, json)
      decreases |entries.Keys| - i
    {
      next, json := ElementRound(L, index, bottom, id, i, json);
      i := i + 1;
    }
    if next.Throws? {
      return Throws;
    }
    ArrayDone(L.env, entries, json);
    return Returns(Arr(json));
  }

  /** The body of the array loop and the `lua_next` that ends it. */
  method ElementRound(L: LuaState, index: int, ghost bottom: seq<Value>, ghost id: nat, ghost i: nat, json: seq<Json>)
    returns (next: Outcome<bool>, json': seq<Json>)
    requires L.Valid() && 0 < index <= |bottom| && bottom[index - 1] == Table(id)
    requires id in L.tables && i < |L.tables[id].Keys| && Number(1.0) in L.tables[id]
    requires AtPlace(L, bottom, id, At(i), Returns(true))
    requires ArraySoFar(L.env, L.tables[id], i, json)
    modifies L`stack
    ensures L.Valid()
    ensures next.Throws? ==> ReadTable(L.env, L.tables[id]) == Throws
    ensures next.Returns? ==>
              && AtPlace(L, bottom, id, Onto(|L.tables[id].Keys|, i + 1), next)
              && ArraySoFar(L.env, L.tables[id], i + 1, json')
    decreases 0, 4
  {
    ghost var entries := L.tables[id];
    ghost var k := Order(L.env, entries)[i];
    var value := ReadElement(L, bottom, k, entries[k]);
    if value.Throws? {
      assert HoldsTable(entries);
      return Throws, json;
    }
    ArrayStep(L.env, entries, i, json);
    PositionIs(Order(L.env, entries), i);
    json' := json + [value.value];
    next := KeyAfter(L, index, bottom, id, k);
  }
}
