/** The part of the Lua 5.1 C API that the JSON conversion uses: a stack of values
    addressed from either end, and a heap of tables.

    What the environment decides comes in an `Env`. Lua strings are sequences of
    characters and may hold a NUL; a C string ends before the first one. */
module Lua {
  import opened Json
  import opened Wrappers

  datatype Value =
    | Nil
    | Boolean(b: bool)
    | Number(n: real)
    | Text(s: string)
    | Table(id: nat)
    | Other(kind: nat)  // functions, userdata, threads

  type Entries = map<Value, Value>

  datatype Env = Env(
    narrow: real -> real,                 // the conversion from double to float
    items: set<string> -> seq<string>,    // the order in which json.items() visits keys
    order: set<Value> -> seq<Value>,      // the order in which lua_next visits keys
    format: real -> string                // how Lua writes a number
  )

  ghost predicate Enumerates<T(!new)>(s: seq<T>, keys: set<T>) {
    && |s| == |keys|
    && (forall k :: k in keys <==> k in s)
    && (forall i, j | 0 <= i < j < |s| :: s[i] != s[j])
  }

  /** The key of the i-th element of an array: Lua counts from 1. */
  function ArrayKey(i: int): Value {
    Number((i + 1) as real)
  }

  function Indices(n: nat): seq<Value> {
    seq(n, i requires 0 <= i < n => ArrayKey(i))
  }

  function IndexSet(n: nat): set<Value> {
    set v | v in Indices(n)
  }

  const LIMIT: real := TWO_TO_THE_63 as real

  /** Both orders visit every key once; an array without holes is visited from 1 up; the
      narrowing does not leave the 64-bit range and keeps its lower end. */
  ghost predicate Sane(env: Env) {
    && (forall keys :: Enumerates(env.items(keys), keys))
    && (forall keys :: Enumerates(env.order(keys), keys))
    && (forall n: nat :: env.order(IndexSet(n)) == Indices(n))
    && (forall r | -LIMIT <= r <= LIMIT :: -LIMIT <= env.narrow(r) <= LIMIT)
    && env.narrow(-LIMIT) == -LIMIT
  }

  /** `c` is what comes before the first NUL of `s`. */
  predicate Cut(s: string, c: string) {
    c <= s && NulFree(c) && (|c| < |s| ==> s[|c|] == '\0')
  }

  /** A string as C sees it. */
  function CStr(s: string): (c: string)
    ensures Cut(s, c)
    ensures NulFree(s) <==> c == s
  {
    if s == [] || s[0] == '\0' then [] else [s[0]] + CStr(s[1..])
  }

  predicate NulFree(s: string) {
    '\0' !in s
  }

  /** `t[key] = value`: assigning nil removes the key. */
  function Assign(entries: Entries, key: Value, value: Value): Entries {
    if value.Nil? then entries - {key} else entries[key := value]
  }

  function PositionOf<T(==)>(s: seq<T>, x: T): (i: nat)
    requires x in s
    ensures i < |s| && s[i] == x
  {
    if s[0] == x then 0 else 1 + PositionOf(s[1..], x)
  }

  lemma MemberOfPrefix<T>(s: seq<T>, n: nat, x: T)
    requires 0 < n <= |s|
    ensures x in s[..n] <==> x in s[..n - 1] || x == s[n - 1]
  {
    assert s[..n] == s[..n - 1] + [s[n - 1]];
  }

  /** The position in the stack that an index names: positive from the bottom,
      negative from the top. */
  function Slot(top: nat, index: int): int {
    if index > 0 then index - 1 else top + index
  }

  /** A reference to a table refers to one of these. */
  predicate Alive(v: Value, ids: set<nat>) {
    v.Table? ==> v.id in ids
  }

  /** No nil is stored, and no reference dangles. */
  ghost predicate WellFormed(entries: Entries, ids: set<nat>) {
    forall k | k in entries :: !k.Nil? && !entries[k].Nil? && Alive(k, ids) && Alive(entries[k], ids)
  }

  class LuaState {
    const env: Env
    var stack: seq<Value>
    var tables: map<nat, Entries>
    var nextId: nat

    ghost predicate Valid()
      reads this
    {
      && Sane(env)
      && (forall id | id in tables :: id < nextId && WellFormed(tables[id], tables.Keys))
      && (forall i | 0 <= i < |stack| :: Alive(stack[i], tables.Keys))
    }

    predicate Acceptable(index: int)
      reads this
    {
      0 <= Slot(|stack|, index) < |stack|
    }

    function At(index: int): Value
      reads this
      requires Acceptable(index)
    {
      stack[Slot(|stack|, index)]
    }

    constructor (env: Env)
      requires Sane(env)
      ensures Valid() && stack == [] && tables == map[] && this.env == env
    {
      this.env := env;
      stack, tables, nextId := [], map[], 0;
    }

    method Push(v: Value)
      requires Valid() && Alive(v, tables.Keys)
      modifies this`stack
      ensures Valid() && stack == old(stack) + [v]
    {
      stack := stack + [v];
    }

    method PushString(c: string)
      requires Valid()
      modifies this`stack
      ensures Valid() && stack == old(stack) + [Text(CStr(c))]
    {
      stack := stack + [Text(CStr(c))];
    }

    method Pop(n: nat)
      requires Valid() && n <= |stack|
      modifies this`stack
      ensures Valid() && stack == old(stack)[..|old(stack)| - n]
    {
      stack := stack[..|stack| - n];
    }

    method NewTable()
      requires Valid()
      modifies this
      ensures Valid()
      ensures stack == old(stack) + [Table(old(nextId))]
      ensures tables == old(tables)[old(nextId) := map[]] && nextId == old(nextId) + 1
    {
      tables := tables[nextId := map[]];
      stack := stack + [Table(nextId)];
      nextId := nextId + 1;
    }

    /** `lua_settable`: the value on top, the key below it, both popped. */
    method SetTable(index: int)
      requires Valid() && |stack| >= 2 && Acceptable(index)
      requires At(index).Table?
      requires !stack[|stack| - 2].Nil?
      modifies this`stack, this`tables
      ensures Valid()
      ensures stack == old(stack)[..|old(stack)| - 2]
      ensures old(At(index)).id in old(tables)
      ensures var id, top := old(At(index)).id, |old(stack)|;
              tables == old(tables)[id := Assign(old(tables)[id], old(stack)[top - 2], old(stack)[top - 1])]
    {
      var id, top := At(index).id, |stack|;
      tables := tables[id := Assign(tables[id], stack[top - 2], stack[top - 1])];
      stack := stack[..top - 2];
    }

    /** `lua_gettable`: replaces the key on top. A number cannot be indexed: that is a
        Lua error. */
    method GetTable(index: int) returns (r: Outcome<()>)
      requires Valid() && |stack| >= 1 && Acceptable(index)
      requires At(index).Number? || At(index).Table?
      modifies this`stack
      ensures Valid()
      ensures r.Throws? <==> old(At(index)).Number?
      ensures r.Returns? ==> old(At(index)).id in tables
      ensures r.Returns? ==>
                var entries, key := tables[old(At(index)).id], old(stack)[|old(stack)| - 1];
                stack == old(stack)[..|old(stack)| - 1] + [if key in entries then entries[key] else Nil]
    {
      var table := At(index);
      if table.Number? {
        return Throws;
      }
      var entries, key := tables[table.id], stack[|stack| - 1];
      stack := stack[..|stack| - 1] + [if key in entries then entries[key] else Nil];
      return Returns(());
    }

    /** `lua_next`: replaces the key on top by the next key and its value, or pops it at
        the end of the table. A key that the table does not have is a Lua error. */
    method Next(index: int) returns (r: Outcome<bool>)
      requires Valid() && |stack| >= 1 && Acceptable(index)
      requires At(index).Table?
      modifies this`stack
      ensures Valid() && old(At(index)).id in tables
      ensures var entries, key := tables[old(At(index)).id], old(stack)[|old(stack)| - 1];
              var rest, order := old(stack)[..|old(stack)| - 1], env.order(entries.Keys);
              && (r.Throws? <==> !key.Nil? && key !in entries)
              && (r.Returns? ==>
                    var i := if key.Nil? then 0 else PositionOf(order, key) + 1;
                    && r.value == (i < |order|)
                    && stack == if i < |order| then rest + [order[i], entries[order[i]]] else rest)
    {
      var entries, key := tables[At(index).id], stack[|stack| - 1];
      var rest, order := stack[..|stack| - 1], env.order(entries.Keys);
      assert Enumerates(order, entries.Keys);
      if !key.Nil? && key !in entries {
        return Throws;
      }
      var i := if key.Nil? then 0 else PositionOf(order, key) + 1;
      assert i < |order| ==> order[i] in order;
      stack := if i < |order| then rest + [order[i], entries[order[i]]] else rest;
      return Returns(i < |order|);
    }

    /** `luaL_checkstring`: a number is converted in place; anything else that is not a
        string is a Lua error. */
    method CheckString(index: int) returns (r: Outcome<string>)
      requires Valid() && Acceptable(index)
      modifies this`stack
      ensures Valid()
      ensures var v, slot := old(At(index)), Slot(|old(stack)|, index);
              && (r.Throws? <==> !v.Text? && !v.Number?)
              && (v.Text? ==> r == Returns(CStr(v.s)) && stack == old(stack))
              && (v.Number? ==>
                    && r == Returns(CStr(env.format(v.n)))
                    && stack == old(stack)[slot := Text(env.format(v.n))])
    {
      var v := At(index);
      match v {
        case Text(s) =>
          return Returns(CStr(s));
        case Number(n) =>
          stack := stack[Slot(|stack|, index) := Text(env.format(n))];
          return Returns(CStr(env.format(n)));
        case _ =>
          return Throws;
      }
    }
  }
}
