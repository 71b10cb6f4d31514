/** What `lua_value_to_json` reads off a table, and on which tables it never ends.

    The array loop visits every key once. The object loop need not: it converts a number
    key to a string in place, and `lua_next` then goes on after that string key, wherever
    the table has it. */
module LuaTable {
  import opened Json
  import opened Wrappers
  import opened Lua
  import opened Walks

  /** A value that is not a table. `lua_toboolean` gives an int, so a boolean becomes a
      number; a number without fraction becomes an integer. */
  function ReadScalar(v: Value): Json {
    match v
    case Boolean(b) => Int(if b then 1 else 0)
    case Number(n) => if n == n.Floor as real then Int(ToInt64(n.Floor)) else Float(n)
    case Text(s) => Str(CStr(s))
    case _ => Null
  }

  /** `j` says what `v` is: nothing for nil and for what JSON lacks, 1 and 0 for a boolean,
      the same number for a number (an integer modulo 2^64), the string before its first
      NUL for a string. */
  predicate Says(j: Json, v: Value) {
    match v
    case Nil => j == Null
    case Boolean(b) => j == if b then Int(1) else Int(0)
    case Number(n) =>
      if n == n.Floor as real then j.Int? && (j.i - n.Floor) % TWO_TO_THE_64 == 0 else j == Float(n)
    case Text(s) => j.Str? && Cut(s, j.s)
    case Table(_) => false
    case Other(_) => j == Null
  }

  lemma ScalarSays(v: Value)
    requires !v.Table?
    ensures Says(ReadScalar(v), v)
  {
  }

  predicate HoldsTable(entries: Entries) {
    exists k | k in entries :: entries[k].Table?
  }

  function Order(env: Env, entries: Entries): (order: seq<Value>)
    requires Sane(env)
    ensures |order| == |entries.Keys|
    ensures forall k :: k in entries <==> k in order
    ensures forall i, j | 0 <= i < j < |order| :: order[i] != order[j]
  {
    assert Enumerates(env.order(entries.Keys), entries.Keys);
    env.order(entries.Keys)
  }

  // ----- the array loop -----

  /** The values of these keys, pushed back one by one. */
  function ArrayOf(entries: Entries, keys: seq<Value>): seq<Json>
    requires forall k | k in keys :: k in entries
  {
    seq(|keys|, i requires 0 <= i < |keys| => ReadScalar(entries[keys[i]]))
  }

  // ----- the object loop -----

  /** Where `lua_next` goes from this key. */
  function Following(env: Env, entries: Entries, key: Value): Place
    requires Sane(env)
  {
    if key in entries then Onto(|entries.Keys|, PositionOf(Order(env, entries), key) + 1) else Error
  }

  /** A key as `luaL_checkstring` leaves it. */
  function Form(env: Env, k: Value): Value {
    if k.Number? then Text(env.format(k.n)) else k
  }

  /** One round of the object loop at the i-th key, and the `lua_next` that ends it. A key
      must be a string or a number, and its value no table, since the recursive call
      indexes past its own push. */
  function Round(env: Env, entries: Entries, i: nat): Place
    requires Sane(env) && i < |Order(env, entries)|
  {
    var k := Order(env, entries)[i];
    if !Form(env, k).Text? || entries[k].Table? then Error else Following(env, entries, Form(env, k))
  }

  function RoundsOf(env: Env, entries: Entries): (rounds: Rounds)
    requires Sane(env)
    ensures Closed(rounds) && |rounds| == |entries.Keys|
  {
    seq(|entries.Keys|, i requires 0 <= i < |entries.Keys| => Round(env, entries, i))
  }

  /** Where the loop is after `n` rounds: at the i-th key in visiting order, with that key
      and its value on the stack; past the last one; or left by a Lua error. */
  function PlaceAfter(env: Env, entries: Entries, n: nat): (p: Place)
    requires Sane(env)
    ensures p.At? ==> p.i < |entries.Keys|
  {
    Walk(RoundsOf(env, entries), n)
  }

  /** The object with the member that the round at the i-th key puts into it. */
  function Put(env: Env, entries: Entries, i: nat, obj: map<string, Json>): map<string, Json>
    requires Sane(env) && i < |entries.Keys|
  {
    var k := Order(env, entries)[i];
    if Form(env, k).Text? then obj[CStr(Form(env, k).s) := ReadScalar(entries[k])] else obj
  }

  /** What the first `n` rounds have put into the object. */
  function ObjectAfter(env: Env, entries: Entries, n: nat): map<string, Json>
    requires Sane(env)
  {
    if n == 0 then map[]
    else
      var before, p := ObjectAfter(env, entries, n - 1), PlaceAfter(env, entries, n - 1);
      if p.At? then Put(env, entries, p.i, before) else before
  }

  // ----- the whole table -----

  /** The conversion comes to an end, by a result or a Lua error: an array always, and an
      object if as many rounds as there are keys are enough. `RunsForeverIff` shows that
      otherwise no number of rounds is. */
  predicate Ends(env: Env, entries: Entries)
    requires Sane(env)
  {
    Number(1.0) in entries || !PlaceAfter(env, entries, |entries.Keys|).At?
  }

  /** What a table converts to, if that ends. With something at index 1 it is read as an
      array, and otherwise as an object. */
  function ReadTable(env: Env, entries: Entries): Outcome<Json>
    requires Sane(env)
  {
    var n := |entries.Keys|;
    if Number(1.0) in entries then
      if HoldsTable(entries) then Throws else Returns(Arr(ArrayOf(entries, Order(env, entries))))
    else
      if PlaceAfter(env, entries, n).End? then Returns(Obj(ObjectAfter(env, entries, n))) else Throws
  }

  /** What `lua_value_to_json(L, index)` gives for the value at that index. */
  function Read(env: Env, tables: map<nat, Entries>, v: Value, absolute: bool): Outcome<Json>
    requires Sane(env) && (v.Table? ==> v.id in tables)
  {
    if !v.Table? then Returns(ReadScalar(v))
    else if absolute then ReadTable(env, tables[v.id])
    else Throws
  }

  lemma {:induction false} PositionIs(order: seq<Value>, i: nat)
    requires i < |order| && forall a, b | 0 <= a < b < |order| :: order[a] != order[b]
    ensures PositionOf(order, order[i]) == i
  {
    var p := PositionOf(order, order[i]);
    assert order[p] == order[i];
  }

  /** What one more round does. */
  lemma OneRound(env: Env, entries: Entries, n: nat)
    requires Sane(env) && PlaceAfter(env, entries, n).At?
    ensures var i := PlaceAfter(env, entries, n).i;
            && PlaceAfter(env, entries, n + 1) == Round(env, entries, i)
            && ObjectAfter(env, entries, n + 1) == Put(env, entries, i, ObjectAfter(env, entries, n))
  {
  }

  lemma {:induction false} ObjectStaysAsItIs(env: Env, entries: Entries, m: nat, n: nat)
    requires Sane(env) && m <= n && !PlaceAfter(env, entries, m).At?
    ensures PlaceAfter(env, entries, n) == PlaceAfter(env, entries, m)
    ensures ObjectAfter(env, entries, n) == ObjectAfter(env, entries, m)
  {
    if m < n {
      ObjectStaysAsItIs(env, entries, m, n - 1);
    }
  }

  /** Once the loop has stopped, the table converts to what it has. */
  lemma ReadDone(env: Env, entries: Entries, n: nat)
    requires Sane(env) && n <= |entries.Keys| && !PlaceAfter(env, entries, n).At? && Number(1.0) !in entries
    ensures ReadTable(env, entries) ==
            if PlaceAfter(env, entries, n).End? then Returns(Obj(ObjectAfter(env, entries, n))) else Throws
  {
    ObjectStaysAsItIs(env, entries, n, |entries.Keys|);
  }

  /** Which table a member refers to makes no difference. */
  lemma SameShapeReads(env: Env, a: Entries, b: Entries)
    requires Sane(env) && a.Keys == b.Keys
    requires forall k | k in a :: (a[k].Table? <==> b[k].Table?) && (!a[k].Table? ==> a[k] == b[k])
    ensures ReadTable(env, a) == ReadTable(env, b)
  {
    if HoldsTable(a) {
      var k :| k in a && a[k].Table?;
      assert b[k].Table?;
    } else {
      assert a == b;
    }
    SameShapeRounds(env, a, b);
    SameShapeObject(env, a, b, |a.Keys|);
  }

  lemma SameShapeRound(env: Env, a: Entries, b: Entries, i: nat)
    requires Sane(env) && a.Keys == b.Keys && i < |a.Keys|
    requires forall k | k in a :: a[k].Table? <==> b[k].Table?
    ensures Round(env, a, i) == Round(env, b, i)
  {
    assert Order(env, a)[i] in Order(env, a);
  }

  lemma SameShapeRounds(env: Env, a: Entries, b: Entries)
    requires Sane(env) && a.Keys == b.Keys
    requires forall k | k in a :: a[k].Table? <==> b[k].Table?
    ensures RoundsOf(env, a) == RoundsOf(env, b)
  {
    forall i | 0 <= i < |a.Keys| ensures RoundsOf(env, a)[i] == RoundsOf(env, b)[i] {
      SameShapeRound(env, a, b, i);
    }
  }

  lemma {:induction false} SameShapeObject(env: Env, a: Entries, b: Entries, n: nat)
    requires Sane(env) && a.Keys == b.Keys && RoundsOf(env, a) == RoundsOf(env, b)
    requires forall k | k in a :: ReadScalar(a[k]) == ReadScalar(b[k])
    ensures ObjectAfter(env, a, n) == ObjectAfter(env, b, n)
  {
    if n > 0 {
      SameShapeObject(env, a, b, n - 1);
      SameShapeStep(env, a, b, n - 1);
    }
  }

  lemma SameShapeStep(env: Env, a: Entries, b: Entries, n: nat)
    requires Sane(env) && a.Keys == b.Keys && RoundsOf(env, a) == RoundsOf(env, b)
    requires forall k | k in a :: ReadScalar(a[k]) == ReadScalar(b[k])
    requires ObjectAfter(env, a, n) == ObjectAfter(env, b, n)
    ensures ObjectAfter(env, a, n + 1) == ObjectAfter(env, b, n + 1)
  {
    var p := PlaceAfter(env, a, n);
    assert p == PlaceAfter(env, b, n);
    if p.At? {
      OneRound(env, a, n);
      OneRound(env, b, n);
      assert Order(env, a)[p.i] in Order(env, a);
    }
  }

  // ----- tables with string keys only, with number keys only -----

  lemma TextRound(env: Env, entries: Entries, i: nat, obj: map<string, Json>)
    requires Sane(env) && i < |entries.Keys| && forall k | k in entries :: k.Text?
    ensures var k := Order(env, entries)[i];
            && k in entries
            && Round(env, entries, i) == (if entries[k].Table? then Error else Onto(|entries.Keys|, i + 1))
            && Put(env, entries, i, obj) == obj[CStr(k.s) := ReadScalar(entries[k])]
  {
    assert Order(env, entries)[i] in Order(env, entries);
    PositionIs(Order(env, entries), i);
  }

  /** On string keys the loop visits every key once. */
  lemma {:induction false} TextKeysInOrder(env: Env, entries: Entries, n: nat)
    requires Sane(env) && n <= |entries.Keys| && forall k | k in entries :: k.Text?
    requires forall i | 0 <= i < n :: !entries[Order(env, entries)[i]].Table?
    ensures PlaceAfter(env, entries, n) == Onto(|entries.Keys|, n)
  {
    if n > 0 {
      TextKeysInOrder(env, entries, n - 1);
      OneRound(env, entries, n - 1);
      TextRound(env, entries, n - 1, map[]);
    }
  }

  lemma TextObjectStep(env: Env, entries: Entries, n: nat)
    requires Sane(env) && n < |entries.Keys| && forall k | k in entries :: k.Text?
    requires forall i | 0 <= i < n :: !entries[Order(env, entries)[i]].Table?
    ensures var k := Order(env, entries)[n];
            && k in entries
            && ObjectAfter(env, entries, n + 1) == ObjectAfter(env, entries, n)[CStr(k.s) := ReadScalar(entries[k])]
  {
    TextKeysInOrder(env, entries, n);
    OneRound(env, entries, n);
    TextRound(env, entries, n, ObjectAfter(env, entries, n));
  }

  /** For the name `s`, the object has what the first `n` of these string keys make. */
  predicate MadeOf(obj: map<string, Json>, entries: Entries, order: seq<Value>, n: nat, s: string)
    requires n <= |order|
  {
    && (s in obj <==> Text(s) in order[..n])
    && (s in obj ==> Text(s) in entries && obj[s] == ReadScalar(entries[Text(s)]))
  }

  lemma OneMoreName(obj: map<string, Json>, entries: Entries, order: seq<Value>, n: nat, s: string)
    requires n < |order| && order[n] in entries && order[n].Text? && NulFree(order[n].s)
    requires MadeOf(obj, entries, order, n, s)
    ensures MadeOf(obj[CStr(order[n].s) := ReadScalar(entries[order[n]])], entries, order, n + 1, s)
  {
    MemberOfPrefix(order, n + 1, Text(s));
    assert CStr(order[n].s) == order[n].s;
  }

  /** `objs[i]` is the object after the first `i` of these string keys. */
  ghost predicate Growing(objs: seq<map<string, Json>>, entries: Entries, order: seq<Value>) {
    && |objs| == |order| + 1 && objs[0] == map[]
    && (forall i | 0 <= i < |order| :: order[i] in entries && order[i].Text? && NulFree(order[i].s))
    && (forall i | 0 <= i < |order| ::
          objs[i + 1] == objs[i][CStr(order[i].s) := ReadScalar(entries[order[i]])])
  }

  /** String keys without NULs make one member of each. */
  lemma {:induction false} GrowsByNames(objs: seq<map<string, Json>>, entries: Entries, order: seq<Value>, n: nat,
                                        s: string)
    requires Growing(objs, entries, order) && n <= |order|
    ensures MadeOf(objs[n], entries, order, n, s)
  {
    if n > 0 {
      GrowsByNames(objs, entries, order, n - 1, s);
      OneMoreName(objs[n - 1], entries, order, n - 1, s);
    }
  }

  lemma TextKeysGrow(env: Env, entries: Entries) returns (objs: seq<map<string, Json>>)
    requires Sane(env) && !HoldsTable(entries) && forall k | k in entries :: k.Text? && NulFree(k.s)
    ensures Growing(objs, entries, Order(env, entries))
    ensures objs[|entries.Keys|] == ObjectAfter(env, entries, |entries.Keys|)
    ensures PlaceAfter(env, entries, |entries.Keys|).End?
  {
    var order := Order(env, entries);
    objs := seq(|order| + 1, i requires 0 <= i < |order| + 1 => ObjectAfter(env, entries, i));
    forall i | 0 <= i < |order| ensures order[i] in entries {
      assert order[i] in order;
    }
    forall i | 0 <= i < |order| ensures objs[i + 1] == objs[i][CStr(order[i].s) := ReadScalar(entries[order[i]])] {
      TextObjectStep(env, entries, i);
    }
    TextKeysInOrder(env, entries, |order|);
  }

  /** What a table with such keys only converts to. */
  lemma TextTableReads(env: Env, entries: Entries)
    requires Sane(env) && forall k | k in entries :: k.Text? && NulFree(k.s)
    ensures var r := ReadTable(env, entries);
            && (r.Throws? <==> HoldsTable(entries))
            && (r.Returns? ==>
                  && r.value.Obj?
                  && (forall s :: s in r.value.members <==> Text(s) in entries)
                  && (forall s | s in r.value.members :: r.value.members[s] == ReadScalar(entries[Text(s)])))
  {
    var order := Order(env, entries);
    if HoldsTable(entries) {
      TableAmongTextsThrows(env, entries);
    } else {
      var objs := TextKeysGrow(env, entries);
      ReadDone(env, entries, |order|);
      assert order[..|order|] == order;
      var obj := objs[|order|];
      forall s
        ensures s in obj <==> Text(s) in entries
        ensures s in obj ==> obj[s] == ReadScalar(entries[Text(s)])
      {
        GrowsByNames(objs, entries, order, |order|, s);
      }
    }
  }

  lemma TableAmongTextsThrows(env: Env, entries: Entries)
    requires Sane(env) && HoldsTable(entries) && forall k | k in entries :: k.Text?
    ensures ReadTable(env, entries) == Throws
  {
    var order := Order(env, entries);
    forall k | k in order ensures k in entries {}
    var k :| k in entries && entries[k].Table?;
    assert k in order;
    var i := FirstTable(entries, order, PositionOf(order, k));
    TextKeysInOrder(env, entries, i);
    OneRound(env, entries, i);
    TextRound(env, entries, i, map[]);
    ReadDone(env, entries, i + 1);
  }

  lemma {:induction false} FirstTable(entries: Entries, order: seq<Value>, n: nat) returns (i: nat)
    requires forall k | k in order :: k in entries
    requires n < |order| && entries[order[n]].Table?
    ensures i <= n && entries[order[i]].Table?
    ensures forall j | 0 <= j < i :: !entries[order[j]].Table?
  {
    if j: nat :| j < n && entries[order[j]].Table? {
      i := FirstTable(entries, order, j);
    } else {
      i := n;
    }
  }

  /** Number keys without a 1 among them are an error at once. */
  lemma NumberKeysThrow(env: Env, entries: Entries, k: Value)
    requires Sane(env) && k in entries && Number(1.0) !in entries
    requires forall k | k in entries :: k.Number?
    ensures ReadTable(env, entries) == Throws
  {
    var order := Order(env, entries);
    assert k in order;
    assert order[0] in order;
    assert Form(env, order[0]) !in entries;
    assert PlaceAfter(env, entries, 0) == At(0);
    assert PlaceAfter(env, entries, 1) == Error;
    ReadDone(env, entries, 1);
  }

  // ----- what a table converts to, key by key -----

  /** Round `a` is at a key that C reads as `name`. */
  predicate NamedAt(env: Env, entries: Entries, a: nat, name: string)
    requires Sane(env)
  {
    var p := PlaceAfter(env, entries, a);
    p.At? &&
    var form := Form(env, Order(env, entries)[p.i]);
    form.Text? && Cut(form.s, name)
  }

  /** The last of the first `n` rounds that is at this name. */
  function LastNamed(env: Env, entries: Entries, n: nat, name: string): (last: Option<nat>)
    requires Sane(env)
    ensures last.Some? ==> last.value < n && PlaceAfter(env, entries, last.value).At?
  {
    if n == 0 then None
    else if NamedAt(env, entries, n - 1, name) then Some(n - 1)
    else LastNamed(env, entries, n - 1, name)
  }

  lemma CutIsUnique(s: string, c: string, d: string)
    requires Cut(s, c) && Cut(s, d)
    ensures c == d
  {
  }

  /** The value that the loop has on the stack in round `a`. */
  function ValueAt(env: Env, entries: Entries, a: nat): Value
    requires Sane(env) && PlaceAfter(env, entries, a).At?
  {
    var k := Order(env, entries)[PlaceAfter(env, entries, a).i];
    assert k in Order(env, entries);
    entries[k]
  }

  /** The object has the names met so far, each with the last value met under it. */
  ghost predicate HasNamed(env: Env, entries: Entries, n: nat, name: string)
    requires Sane(env)
  {
    var obj, last := ObjectAfter(env, entries, n), LastNamed(env, entries, n, name);
    && (name in obj <==> last.Some?)
    && (last.Some? ==> obj[name] == ReadScalar(ValueAt(env, entries, last.value)))
  }

  lemma {:induction false} ObjectNames(env: Env, entries: Entries, n: nat, name: string)
    requires Sane(env)
    ensures HasNamed(env, entries, n, name)
  {
    if n > 0 {
      ObjectNames(env, entries, n - 1, name);
      RoundKeepsNamed(env, entries, n - 1, name);
    }
  }

  lemma RoundKeepsNamed(env: Env, entries: Entries, n: nat, name: string)
    requires Sane(env) && HasNamed(env, entries, n, name)
    ensures HasNamed(env, entries, n + 1, name)
  {
    if NamedAt(env, entries, n, name) {
      NamedNow(env, entries, n, name);
      assert LastNamed(env, entries, n + 1, name) == Some(n);
    } else {
      NotNamedNow(env, entries, n, name);
      assert LastNamed(env, entries, n + 1, name) == LastNamed(env, entries, n, name);
    }
  }

  lemma NamedNow(env: Env, entries: Entries, n: nat, name: string)
    requires Sane(env) && NamedAt(env, entries, n, name)
    ensures var after := ObjectAfter(env, entries, n + 1);
            name in after && after[name] == ReadScalar(ValueAt(env, entries, n))
  {
    OneRound(env, entries, n);
    var form := Form(env, Order(env, entries)[PlaceAfter(env, entries, n).i]);
    CutIsUnique(form.s, name, CStr(form.s));
  }

  lemma NotNamedNow(env: Env, entries: Entries, n: nat, name: string)
    requires Sane(env) && !NamedAt(env, entries, n, name)
    ensures var before, after := ObjectAfter(env, entries, n), ObjectAfter(env, entries, n + 1);
            && (name in after <==> name in before)
            && (name in before ==> after[name] == before[name])
  {
    if PlaceAfter(env, entries, n).At? {
      OneRound(env, entries, n);
    }
  }

  /** What is read off a table. As an array: one element for each key in visiting order,
      each saying what its value is. As an object: the names met in the rounds made, each
      saying what the last value met under it is. */
  ghost predicate TableSays(env: Env, entries: Entries, j: Json)
    requires Sane(env)
  {
    var order := Order(env, entries);
    if Number(1.0) in entries then
      && j.Arr? && |j.elems| == |order|
      && forall i | 0 <= i < |order| :: order[i] in entries && Says(j.elems[i], entries[order[i]])
    else
      j.Obj? && forall name :: MemberSays(env, entries, j.members, name)
  }

  ghost predicate MemberSays(env: Env, entries: Entries, obj: map<string, Json>, name: string)
    requires Sane(env)
  {
    var last := LastNamed(env, entries, |entries.Keys|, name);
    && (name in obj <==> last.Some?)
    && (name in obj ==> Says(obj[name], ValueAt(env, entries, last.value)))
  }

  lemma ReadTableSays(env: Env, entries: Entries)
    requires Sane(env)
    ensures var r := ReadTable(env, entries);
            && (r.Returns? ==> TableSays(env, entries, r.value))
            && (Number(1.0) in entries ==> (r.Throws? <==> HoldsTable(entries)))
  {
    var order, r := Order(env, entries), ReadTable(env, entries);
    if r.Returns? {
      if Number(1.0) in entries {
        forall i | 0 <= i < |order| ensures order[i] in entries && Says(r.value.elems[i], entries[order[i]]) {
          assert order[i] in order;
          ScalarSays(entries[order[i]]);
        }
      } else {
        forall name ensures MemberSays(env, entries, r.value.members, name) {
          ObjectNames(env, entries, |order|, name);
          var last := LastNamed(env, entries, |order|, name);
          if last.Some? {
            EndMeetsNoTable(env, entries, last.value, |order|);
            ScalarSays(ValueAt(env, entries, last.value));
          }
        }
      }
    }
  }

  /** A loop that came to the end met no table. */
  lemma EndMeetsNoTable(env: Env, entries: Entries, a: nat, n: nat)
    requires Sane(env) && a < n && PlaceAfter(env, entries, a).At? && PlaceAfter(env, entries, n).End?
    ensures !ValueAt(env, entries, a).Table?
  {
    OneRound(env, entries, a);
    if ValueAt(env, entries, a).Table? {
      ObjectStaysAsItIs(env, entries, a + 1, n);
    }
  }

  // ----- when the object loop never ends -----

  /** The loop gets through round `a` and then through round `b` with another key that is
      written the same way. */
  ghost predicate MeetsTwin(env: Env, entries: Entries, a: nat, b: nat)
    requires Sane(env)
  {
    var order, p, q := Order(env, entries), PlaceAfter(env, entries, a), PlaceAfter(env, entries, b);
    && a < b && p.At? && q.At? && p.i != q.i
    && Form(env, order[p.i]) == Form(env, order[q.i])
    && !entries[order[q.i]].Table?
  }

  /** Only two keys that are written the same way lead to the same key. */
  lemma SameRoundIff(env: Env, entries: Entries, i: nat, j: nat)
    requires Sane(env) && i < |entries.Keys| && j < |entries.Keys|
    requires Round(env, entries, i).At?
    ensures var order := Order(env, entries);
            Round(env, entries, j) == Round(env, entries, i)
            <==> Form(env, order[i]) == Form(env, order[j]) && !entries[order[j]].Table?
  {
    var order := Order(env, entries);
    var k, l := Form(env, order[i]), Form(env, order[j]);
    assert order[i] in order && order[j] in order;
    assert order[PositionOf(order, k)] == k;
    if Round(env, entries, j) == Round(env, entries, i) {
      assert order[PositionOf(order, l)] == l;
    }
  }

  lemma RoundsNeverRestart(env: Env, entries: Entries)
    requires Sane(env)
    ensures forall i | 0 <= i < |entries.Keys| :: RoundsOf(env, entries)[i] != At(0)
  {
    forall i | 0 <= i < |entries.Keys| ensures RoundsOf(env, entries)[i] != At(0) {
      assert Round(env, entries, i) != At(0);
    }
  }

  lemma MeetIff(env: Env, entries: Entries, a: nat, b: nat)
    requires Sane(env)
    ensures Meet(RoundsOf(env, entries), a, b) <==> MeetsTwin(env, entries, a, b)
  {
    var rounds := RoundsOf(env, entries);
    if a < b && Walk(rounds, b).At? {
      GoesOn(rounds, a, b);
      var i, j := Walk(rounds, a).i, Walk(rounds, b).i;
      assert rounds[i] == Round(env, entries, i) && rounds[j] == Round(env, entries, j);
      SameRoundIff(env, entries, i, j);
    }
  }

  /** The object loop runs for ever exactly if it gets through two rounds with different
      keys that are written the same way: a number and its string, or two numbers that
      lead to the same string. It does so exactly if it has not stopped after as many
      rounds as the table has keys. */
  lemma ObjectLoopRunsForeverIff(env: Env, entries: Entries)
    requires Sane(env)
    ensures var forever := forall n: nat :: PlaceAfter(env, entries, n).At?;
            && (forever <==> exists a: nat, b: nat :: MeetsTwin(env, entries, a, b))
            && (forever <==> PlaceAfter(env, entries, |entries.Keys|).At?)
  {
    var rounds := RoundsOf(env, entries);
    RoundsNeverRestart(env, entries);
    RunsForeverIff(rounds);
    forall a: nat, b: nat ensures Meet(rounds, a, b) <==> MeetsTwin(env, entries, a, b) {
      MeetIff(env, entries, a, b);
    }
    forall n: nat ensures PlaceAfter(env, entries, n) == Walk(rounds, n) {}
  }

  /** No number key is written like a string key of the same table. */
  ghost predicate NoTwins(env: Env, entries: Entries) {
    forall k | k in entries && k.Number? :: Text(env.format(k.n)) !in entries
  }

  /** Then the conversion ends: the first number key is an error. */
  lemma NoTwinsEnds(env: Env, entries: Entries)
    requires Sane(env) && NoTwins(env, entries)
    ensures Ends(env, entries)
  {
    ObjectLoopRunsForeverIff(env, entries);
    forall a: nat, b: nat ensures !MeetsTwin(env, entries, a, b) {
      if MeetsTwin(env, entries, a, b) {
        var rounds := RoundsOf(env, entries);
        GoesOn(rounds, a, b);
        NoTwinToMeet(env, entries, Walk(rounds, a).i, Walk(rounds, b).i);
      }
    }
  }

  lemma NoTwinToMeet(env: Env, entries: Entries, i: nat, j: nat)
    requires Sane(env) && NoTwins(env, entries)
    requires i < |entries.Keys| && j < |entries.Keys| && i != j && Round(env, entries, i).At?
    ensures Form(env, Order(env, entries)[i]) != Form(env, Order(env, entries)[j])
  {
    var order := Order(env, entries);
    assert order[i] in order && order[j] in order && order[i] != order[j];
    assert Form(env, order[i]) in entries;
  }

  /** The smallest such table, { [s] = x, [n] = y } where n is written s: if the string key
      is visited first the loop never ends; if the number is visited first the loop skips
      the string, whose value is lost. */
  lemma TwinOrderDecides(env: Env, s: string, n: real, x: Value, y: Value)
    requires Sane(env) && env.format(n) == s && n != 1.0
    requires !x.Table? && !y.Table?
    ensures var entries: Entries := map[Text(s) := x, Number(n) := y];
            var order := Order(env, entries);
            && (order == [Text(s), Number(n)] || order == [Number(n), Text(s)])
            && ((forall n: nat :: PlaceAfter(env, entries, n).At?) <==> order[0] == Text(s))
            && (order[0] == Number(n) ==> ReadTable(env, entries) == Returns(Obj(map[CStr(s) := ReadScalar(y)])))
  {
    var entries: Entries := map[Text(s) := x, Number(n) := y];
    var order := Order(env, entries);
    assert entries.Keys == {Text(s), Number(n)};
    assert |order| == 2;
    assert order[0] in order && order[1] in order;
    assert PlaceAfter(env, entries, 0) == At(0);
    PositionIs(order, 0);
    PositionIs(order, 1);
    if order[0] == Text(s) {
      assert PlaceAfter(env, entries, 1) == At(1);
      assert MeetsTwin(env, entries, 0, 1);
      ObjectLoopRunsForeverIff(env, entries);
    } else {
      assert PlaceAfter(env, entries, 1) == End;
      ReadDone(env, entries, 1);
      assert ObjectAfter(env, entries, 0) == map[];
      assert ObjectAfter(env, entries, 1) == map[][CStr(s) := ReadScalar(y)];
    }
  }

  /** To reach a number whose string lies earlier is not enough: here round 1 is at the
      number `b`, whose string is the second key, and yet the loop ends two rounds later,
      because it goes on from there through `c` and past the end. */
  lemma EarlierTwinMayEnd(env: Env, entries: Entries, a: real, b: real, c: real)
    requires Sane(env) && forall k | k in entries :: !entries[k].Table?
    requires Order(env, entries) == [Number(a), Text(env.format(b)), Number(c), Text(env.format(a)), Number(b),
                                     Text(env.format(c))]
    ensures PlaceAfter(env, entries, 1) == At(4)
    ensures Form(env, Order(env, entries)[4]) == Order(env, entries)[1]
    ensures PlaceAfter(env, entries, 3) == End
  {
    var order := Order(env, entries);
    PositionIs(order, 1);
    PositionIs(order, 3);
    PositionIs(order, 5);
    forall i | 0 <= i < 6 ensures order[i] in entries {
      assert order[i] in order;
    }
    assert PlaceAfter(env, entries, 0) == At(0);
    assert PlaceAfter(env, entries, 1) == At(4);
    assert PlaceAfter(env, entries, 2) == At(2);
  }
}
