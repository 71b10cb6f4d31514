/** JSON to Lua and back: which values survive, and exactly which. */
module LuaRoundTrip {
  import opened Json
  import opened Wrappers
  import opened Lua
  import opened LuaUtils
  import opened LuaTable
  import opened LuaToJson

  // ----- reading a tree -----

  /** The value itself; for a table only that it is one. */
  function Shallow(d: Deep): Value {
    match d
    case DNil => Nil
    case DBoolean(b) => Boolean(b)
    case DNumber(n) => Number(n)
    case DText(s) => Text(s)
    case DTable(_) => Table(0)
  }

  function ShallowEntries(entries: map<Value, Deep>): Entries {
    map k | k in entries :: Shallow(entries[k])
  }

  /** What `lua_value_to_json` at an absolute index reads off a tree. */
  function ReadDeep(env: Env, d: Deep): Outcome<Json>
    requires Sane(env)
  {
    if d.DTable? then ReadTable(env, ShallowEntries(d.entries)) else Returns(ReadScalar(Shallow(d)))
  }

  lemma RepresentedReads(env: Env, tables: map<nat, Entries>, low: nat, v: Value, d: Deep)
    requires Sane(env) && Represents(tables, low, v, d)
    ensures v.Table? ==> v.id in tables
    ensures Read(env, tables, v, true) == ReadDeep(env, d)
  {
    if d.DTable? {
      var stored, tree := tables[v.id], ShallowEntries(d.entries);
      assert stored.Keys == tree.Keys;
      forall k | k in stored
        ensures stored[k].Table? <==> tree[k].Table?
        ensures !stored[k].Table? ==> stored[k] == tree[k]
      {
        assert Represents(tables, v.id + 1, stored[k], d.entries[k]);
      }
      SameShapeReads(env, stored, tree);
    }
  }

  // ----- the tables that arrays and objects become -----

  /** An array index, counted from 1, of an array of this length. */
  ghost predicate IsIndex(k: Value, n: int) {
    exists i :: 0 <= i < n && k == ArrayKey(i)
  }

  lemma AssignKeys(entries: map<Value, Deep>, key: Value, d: Deep)
    ensures forall k | k in AssignDeep(entries, key, d) :: k in entries || k == key
    ensures forall k | k != key :: k in AssignDeep(entries, key, d) <==> k in entries
  {
  }

  lemma {:induction false} ArrayTableKeys(env: Env, j: Json, n: nat)
    requires Sane(env) && j.Arr? && n <= |j.elems|
    ensures forall k | k in DenoteElems(env, j, n) :: IsIndex(k, n)
  {
    if n > 0 {
      ArrayTableKeys(env, j, n - 1);
      AssignKeys(DenoteElems(env, j, n - 1), ArrayKey(n - 1), Denote(env, j.elems[n - 1]));
      forall k | k in DenoteElems(env, j, n) ensures IsIndex(k, n) {
        if k != ArrayKey(n - 1) {
          var i :| 0 <= i < n - 1 && k == ArrayKey(i);
          assert 0 <= i < n;
        } else {
          assert 0 <= n - 1 < n;
        }
      }
    }
  }

  lemma {:induction false} ArrayTableAt(env: Env, j: Json, n: nat, i: nat)
    requires Sane(env) && j.Arr? && n <= |j.elems| && i < |j.elems|
    ensures ArrayKey(i) in DenoteElems(env, j, n) <==> i < n && !j.elems[i].Null?
    ensures ArrayKey(i) in DenoteElems(env, j, n) ==>
              DenoteElems(env, j, n)[ArrayKey(i)] == Denote(env, j.elems[i])
  {
    if n > 0 {
      ArrayTableAt(env, j, n - 1, i);
    }
  }

  /** For elements of any nesting: index i + 1 holds the meaning of element i, a null
      element is absent, and there is nothing else. */
  lemma ArrayMeaning(env: Env, j: Json)
    requires Sane(env) && j.Arr?
    ensures var entries := Denote(env, j).entries;
            && (forall k | k in entries :: IsIndex(k, |j.elems|))
            && (forall i | 0 <= i < |j.elems| ::
                  var k := Number((i + 1) as real);
                  && (k in entries <==> !j.elems[i].Null?)
                  && (k in entries ==> entries[k] == Denote(env, j.elems[i])))
  {
    var n := |j.elems|;
    ArrayTableKeys(env, j, n);
    forall i | 0 <= i < n
      ensures ArrayKey(i) in DenoteElems(env, j, n) <==> !j.elems[i].Null?
      ensures ArrayKey(i) in DenoteElems(env, j, n) ==>
                DenoteElems(env, j, n)[ArrayKey(i)] == Denote(env, j.elems[i])
    {
      ArrayTableAt(env, j, n, i);
    }
  }

  /** For members of any nesting: every key is a string key cut at its first NUL. */
  lemma {:induction false} ObjectTable(env: Env, j: Json, n: nat)
    requires Sane(env) && j.Obj? && n <= |env.items(j.members.Keys)|
    ensures forall k | k in DenoteMembers(env, j, n) :: k.Text? && NulFree(k.s)
  {
    if n > 0 {
      var key := ItemKey(env, j.members, n - 1);
      ObjectTable(env, j, n - 1);
      AssignKeys(DenoteMembers(env, j, n - 1), Text(CStr(key)), Denote(env, j.members[key]));
    }
  }

  /** When no name holds a NUL, a member is there under its own name once visited,
      unless it is null. */
  lemma {:induction false} ObjectTableAt(env: Env, j: Json, n: nat, key: string)
    requires Sane(env) && j.Obj? && n <= |env.items(j.members.Keys)|
    requires key in j.members && forall k | k in j.members :: NulFree(k)
    ensures var keys, entries := env.items(j.members.Keys), DenoteMembers(env, j, n);
            && (Text(key) in entries <==> key in keys[..n] && !j.members[key].Null?)
            && (Text(key) in entries ==> entries[Text(key)] == Denote(env, j.members[key]))
  {
    if n > 0 {
      ObjectTableAt(env, j, n - 1, key);
      var keys, last := env.items(j.members.Keys), ItemKey(env, j.members, n - 1);
      assert Enumerates(keys, j.members.Keys);
      assert CStr(last) == last;
      MemberOfPrefix(keys, n, key);
    }
  }

  lemma {:induction false} ObjectTableNames(env: Env, j: Json, n: nat)
    requires Sane(env) && j.Obj? && n <= |env.items(j.members.Keys)|
    requires forall k | k in j.members :: NulFree(k)
    ensures forall k | k in DenoteMembers(env, j, n) :: k.Text? && k.s in j.members
  {
    if n > 0 {
      ObjectTableNames(env, j, n - 1);
      assert CStr(ItemKey(env, j.members, n - 1)) == ItemKey(env, j.members, n - 1);
    }
  }

  /** The whole table of an object of any nesting whose names hold no NUL. */
  lemma ObjectMeaning(env: Env, j: Json)
    requires Sane(env) && j.Obj?
    requires forall key | key in j.members :: NulFree(key)
    ensures var entries := Denote(env, j).entries;
            && (forall k | k in entries :: k.Text? && k.s in j.members)
            && (forall key | key in j.members ::
                  && (Text(key) in entries <==> !j.members[key].Null?)
                  && (Text(key) in entries ==> entries[Text(key)] == Denote(env, j.members[key])))
  {
    var keys := env.items(j.members.Keys);
    ObjectTableNames(env, j, |keys|);
    assert Enumerates(keys, j.members.Keys);
    assert keys[..|keys|] == keys;
    forall key | key in j.members
      ensures Text(key) in Denote(env, j).entries <==> !j.members[key].Null?
      ensures Text(key) in Denote(env, j).entries ==> Denote(env, j).entries[Text(key)] == Denote(env, j.members[key])
    {
      ObjectTableAt(env, j, |keys|, key);
    }
  }

  /** The last of the first `n` items whose name C reads as this one. */
  function LastItem(keys: seq<string>, n: nat, name: string): (last: Option<nat>)
    requires n <= |keys|
    ensures last.Some? ==> last.value < n
  {
    if n == 0 then None else if Cut(keys[n - 1], name) then Some(n - 1) else LastItem(keys, n - 1, name)
  }

  /** Names that differ only behind a NUL are one name: of their members, the last one
      visited decides, and a null removes what was there. */
  lemma {:induction false} ObjectMeaningByName(env: Env, j: Json, n: nat, name: string)
    requires Sane(env) && j.Obj? && n <= |env.items(j.members.Keys)|
    ensures var entries, last := DenoteMembers(env, j, n), LastItem(env.items(j.members.Keys), n, name);
            && (Text(name) in entries <==>
                  last.Some? && !j.members[ItemKey(env, j.members, last.value)].Null?)
            && (Text(name) in entries ==>
                  entries[Text(name)] == Denote(env, j.members[ItemKey(env, j.members, last.value)]))
  {
    if n > 0 {
      ObjectMeaningByName(env, j, n - 1, name);
      var key := ItemKey(env, j.members, n - 1);
      SameCut(key, name);
      assert LastItem(env.items(j.members.Keys), n, name) ==
             if CStr(key) == name then Some(n - 1) else LastItem(env.items(j.members.Keys), n - 1, name);
    }
  }

  lemma SameCut(s: string, name: string)
    ensures Cut(s, name) <==> CStr(s) == name
  {
    if Cut(s, name) {
      CutIsUnique(s, name, CStr(s));
    }
  }

  // ----- scalars -----

  /** A scalar means in Lua what it is, inside a table as well. */
  lemma ScalarMeaning(env: Env, j: Json)
    requires Sane(env) && j.Scalar()
    ensures Means(env, j, Shallow(Denote(env, j)))
  {
  }

  /** The scalars that come back JSON-equal: null, 32-bit integers of either kind, floats
      that the narrowing keeps (below 2^63 if they have no fraction), strings without a
      NUL; a boolean never does. */
  predicate ScalarSurvives(env: Env, j: Json) {
    match j
    case Null => true
    case Bool(_) => false
    case Int(i) => -0x8000_0000 <= i < 0x8000_0000
    case Unsigned(u) => u < TWO_TO_THE_32
    case Float(r) => env.narrow(r) == r && (r == r.Floor as real ==> -LIMIT <= r < LIMIT)
    case Str(s) => NulFree(s)
    case _ => false
  }

  lemma ScalarRoundTripIff(env: Env, j: Json)
    requires Sane(env) && j.Scalar()
    ensures ReadDeep(env, Denote(env, j)).Returns?
    ensures JsonEq(ReadDeep(env, Denote(env, j)).value, j) <==> ScalarSurvives(env, j)
  {
    match j
    case Float(r) =>
      var n := env.narrow(r);
      if -LIMIT <= r <= LIMIT {
        assert -LIMIT <= n <= LIMIT;
      }
      if n == n.Floor as real {
        var i := ToInt64(n.Floor);
        assert INT64_MIN <= i < TWO_TO_THE_63;
        if i as real == r {
          assert -LIMIT <= r < LIMIT;
          assert n < LIMIT ==> i == n.Floor;
        }
      }
    case _ =>
  }

  // ----- arrays and objects -----

  /** Exactly the values that `lua_json_to_value` followed by `lua_value_to_json` gives
      back, up to JSON equality: surviving scalars, and flat containers of surviving
      scalars other than null; an array must not be empty, and no name may hold a NUL. */
  predicate Survives(env: Env, j: Json) {
    match j
    case Arr(elems) =>
      elems != [] && forall i | 0 <= i < |elems| :: !elems[i].Null? && ScalarSurvives(env, elems[i])
    case Obj(members) =>
      forall key | key in members :: NulFree(key) && !members[key].Null? && ScalarSurvives(env, members[key])
    case _ => ScalarSurvives(env, j)
  }

  lemma {:induction false} IndexSetSize(n: nat)
    ensures |IndexSet(n)| == n
    ensures forall k :: k in IndexSet(n) <==> IsIndex(k, n)
  {
    forall k ensures k in IndexSet(n) <==> IsIndex(k, n) {
      if IsIndex(k, n) {
        var i :| 0 <= i < n && k == ArrayKey(i);
        assert Indices(n)[i] == k;
      }
    }
    if n > 0 {
      IndexSetSize(n - 1);
      assert Indices(n) == Indices(n - 1) + [ArrayKey(n - 1)];
      assert IndexSet(n) == IndexSet(n - 1) + {ArrayKey(n - 1)};
      assert ArrayKey(n - 1) !in IndexSet(n - 1);
    }
  }

  /** A table with all of the keys 1 to n, and no table in it, is an array in order. */
  lemma FullArrayReads(env: Env, entries: Entries, n: nat)
    requires Sane(env) && n > 0 && entries.Keys == IndexSet(n)
    requires forall k | k in entries :: !entries[k].Table?
    ensures forall i | 0 <= i < n :: ArrayKey(i) in entries
    ensures ReadTable(env, entries) ==
            Returns(Arr(seq(n, i requires 0 <= i < n => ReadScalar(entries[ArrayKey(i)]))))
  {
    IndexSetSize(n);
    forall i | 0 <= i < n ensures ArrayKey(i) in entries {
      assert ArrayKey(i) in IndexSet(n);
    }
    assert ArrayKey(0) == Number(1.0);
    var order := Indices(n);
    assert Order(env, entries) == order;
    forall i | 0 <= i < n ensures order[i] == ArrayKey(i) {}
    forall k | k in order ensures k in entries {}
    assert ArrayOf(entries, order) == seq(n, i requires 0 <= i < n => ReadScalar(entries[ArrayKey(i)]));
  }

  /** A table with only some of them is a shorter array or none. */
  lemma PartialArrayReads(env: Env, entries: Entries, n: nat, missing: Value)
    requires Sane(env) && entries.Keys <= IndexSet(n)
    requires missing in IndexSet(n) && missing !in entries
    ensures var r := ReadTable(env, entries);
            r.Throws? || r.value.Obj? || (r.value.Arr? && |r.value.elems| < n)
  {
    IndexSetSize(n);
    SubsetIsSmaller(entries.Keys, IndexSet(n), missing);
    assert Enumerates(env.order(entries.Keys), entries.Keys);
  }

  /** The keys of an array's table, and that it holds no table when the array is flat. */
  lemma FlatArrayTable(env: Env, j: Json)
    requires Sane(env) && j.Arr?
    requires forall i | 0 <= i < |j.elems| :: j.elems[i].Scalar()
    ensures var entries := ShallowEntries(Denote(env, j).entries);
            && entries.Keys <= IndexSet(|j.elems|)
            && (forall k | k in entries :: !entries[k].Table?)
            && (forall i | 0 <= i < |j.elems| ::
                  && (ArrayKey(i) in entries <==> !j.elems[i].Null?)
                  && (ArrayKey(i) in entries ==> entries[ArrayKey(i)] == Shallow(Denote(env, j.elems[i]))))
  {
    var deep := Denote(env, j).entries;
    ArrayMeaning(env, j);
    IndexSetSize(|j.elems|);
    forall k | k in deep ensures k in IndexSet(|j.elems|) && !Shallow(deep[k]).Table? {
      assert k in Denote(env, j).entries && IsIndex(k, |j.elems|);
      var i :| 0 <= i < |j.elems| && k == ArrayKey(i);
      ScalarIsNoTable(env, j.elems[i]);
    }
  }

  lemma ScalarIsNoTable(env: Env, j: Json)
    requires Sane(env) && j.Scalar()
    ensures !Denote(env, j).DTable?
  {
  }

  /** A flat array without nulls, and not empty, reads back element by element. */
  lemma FlatArrayReadsBack(env: Env, j: Json)
    requires Sane(env) && j.Arr? && j.elems != []
    requires forall i | 0 <= i < |j.elems| :: j.elems[i].Scalar() && !j.elems[i].Null?
    ensures var r := ReadDeep(env, Denote(env, j));
            && r.Returns? && r.value.Arr? && |r.value.elems| == |j.elems|
            && forall i | 0 <= i < |j.elems| :: r.value.elems[i] == ReadScalar(Shallow(Denote(env, j.elems[i])))
  {
    var n := |j.elems|;
    var entries := ShallowEntries(Denote(env, j).entries);
    FlatArrayTable(env, j);
    IndexSetSize(n);
    forall k | k in IndexSet(n) ensures k in entries {
      assert IsIndex(k, n);
      var i :| 0 <= i < n && k == ArrayKey(i);
    }
    FullArrayReads(env, entries, n);
  }

  /** An empty array, or a flat one with a null, comes back shorter or as no array. */
  lemma HolesDoNotReadBack(env: Env, j: Json)
    requires Sane(env) && j.Arr?
    requires forall i | 0 <= i < |j.elems| :: j.elems[i].Scalar()
    requires j.elems == [] || exists i :: 0 <= i < |j.elems| && j.elems[i].Null?
    ensures var r := ReadDeep(env, Denote(env, j));
            r.Throws? || r.value.Obj? || (r.value.Arr? && |r.value.elems| < |j.elems|)
  {
    var n := |j.elems|;
    var entries := ShallowEntries(Denote(env, j).entries);
    FlatArrayTable(env, j);
    IndexSetSize(n);
    if n > 0 {
      var i :| 0 <= i < n && j.elems[i].Null?;
      assert ArrayKey(i) in IndexSet(n);
      PartialArrayReads(env, entries, n, ArrayKey(i));
    } else {
      assert entries == map[];
    }
  }

  lemma SubsetIsSmaller<T>(a: set<T>, b: set<T>, x: T)
    requires a <= b && x in b && x !in a
    ensures |a| < |b|
  {
    assert a <= b - {x};
    SubsetSize(a, b - {x});
  }

  lemma {:induction false} SubsetSize<T>(a: set<T>, b: set<T>)
    requires a <= b
    ensures |a| <= |b|
    decreases a
  {
    if x :| x in a {
      SubsetSize(a - {x}, b - {x});
    }
  }

  lemma ArrayRoundTripIff(env: Env, j: Json)
    requires Sane(env) && j.Arr?
    ensures var r := ReadDeep(env, Denote(env, j));
            (r.Returns? && JsonEq(r.value, j)) <==> Survives(env, j)
  {
    var n := |j.elems|;
    if i :| 0 <= i < n && !j.elems[i].Scalar() {
      NestedArrayThrows(env, j, i);
    } else if j.elems == [] || exists i :: 0 <= i < n && j.elems[i].Null? {
      HolesDoNotReadBack(env, j);
    } else {
      FlatArrayReadsBack(env, j);
      forall i | 0 <= i < n
        ensures JsonEq(ReadScalar(Shallow(Denote(env, j.elems[i]))), j.elems[i]) <==> ScalarSurvives(env, j.elems[i])
      {
        ScalarRoundTripIff(env, j.elems[i]);
      }
    }
  }

  /** An array or object inside an array cannot be read back: that is a Lua error. */
  lemma NestedArrayThrows(env: Env, j: Json, i: nat)
    requires Sane(env) && j.Arr? && i < |j.elems| && !j.elems[i].Scalar()
    ensures ReadDeep(env, Denote(env, j)).Throws?
  {
    ArrayMeaning(env, j);
    var entries := Denote(env, j).entries;
    assert entries[ArrayKey(i)] == Denote(env, j.elems[i]);
    var shallow := ShallowEntries(entries);
    assert shallow[ArrayKey(i)].Table?;
    if Number(1.0) !in shallow {
      forall k | k in shallow ensures k.Number? {
        assert IsIndex(k, |j.elems|);
      }
      NumberKeysThrow(env, shallow, ArrayKey(i));
    }
  }

  /** Nor inside an object, when no name holds a NUL. */
  lemma NestedObjectThrows(env: Env, j: Json, key: string)
    requires Sane(env) && j.Obj? && key in j.members && !j.members[key].Scalar()
    requires forall k | k in j.members :: NulFree(k)
    ensures ReadDeep(env, Denote(env, j)).Throws?
  {
    ObjectMeaning(env, j);
    var entries := Denote(env, j).entries;
    assert entries[Text(key)] == Denote(env, j.members[key]);
    assert ShallowEntries(entries)[Text(key)].Table?;
    ObjectTable(env, j, |env.items(j.members.Keys)|);
    TableAmongTextsThrows(env, ShallowEntries(entries));
  }

  /** The table of an object never reads back as an array, and whatever it reads back as
      has names without NULs only. */
  lemma ObjectReadsBack(env: Env, j: Json)
    requires Sane(env) && j.Obj?
    ensures var entries := ShallowEntries(Denote(env, j).entries);
            var r := ReadDeep(env, Denote(env, j));
            && (r.Throws? <==> HoldsTable(entries))
            && (r.Returns? ==>
                  && r.value.Obj?
                  && (forall s :: s in r.value.members <==> Text(s) in entries)
                  && (forall s | s in r.value.members ::
                        NulFree(s) && r.value.members[s] == ReadScalar(entries[Text(s)])))
  {
    ObjectTable(env, j, |env.items(j.members.Keys)|);
    TextTableReads(env, ShallowEntries(Denote(env, j).entries));
  }

  lemma ObjectRoundTripIff(env: Env, j: Json)
    requires Sane(env) && j.Obj?
    ensures var r := ReadDeep(env, Denote(env, j));
            (r.Returns? && JsonEq(r.value, j)) <==> Survives(env, j)
  {
    var r := ReadDeep(env, Denote(env, j));
    ObjectReadsBack(env, j);
    if forall key | key in j.members :: NulFree(key) {
      if key :| key in j.members && !j.members[key].Scalar() {
        NestedObjectThrows(env, j, key);
      } else {
        FlatObjectRoundTripIff(env, j);
      }
    }
  }

  /** A flat object whose names hold no NUL reads back member by member, without the
      nulls. */
  lemma FlatObjectReadsBack(env: Env, j: Json)
    requires Sane(env) && j.Obj?
    requires forall key | key in j.members :: NulFree(key) && j.members[key].Scalar()
    ensures var r := ReadDeep(env, Denote(env, j));
            && r.Returns? && r.value.Obj?
            && r.value.members.Keys <= j.members.Keys
            && forall key | key in j.members ::
                 && (key in r.value.members <==> !j.members[key].Null?)
                 && (key in r.value.members ==>
                       r.value.members[key] == ReadScalar(Shallow(Denote(env, j.members[key]))))
  {
    var entries := ShallowEntries(Denote(env, j).entries);
    ObjectReadsBack(env, j);
    ObjectMeaning(env, j);
    forall k | k in entries ensures !entries[k].Table? {
      assert k == Text(k.s) && k.s in j.members;
    }
    var r := ReadDeep(env, Denote(env, j));
    forall key | key in r.value.members ensures key in j.members {
      assert Text(key) in entries;
    }
  }

  lemma FlatObjectRoundTripIff(env: Env, j: Json)
    requires Sane(env) && j.Obj?
    requires forall key | key in j.members :: NulFree(key) && j.members[key].Scalar()
    ensures var r := ReadDeep(env, Denote(env, j));
            (r.Returns? && JsonEq(r.value, j)) <==> Survives(env, j)
  {
    FlatObjectReadsBack(env, j);
    var back := ReadDeep(env, Denote(env, j)).value.members;
    forall key | key in back
      ensures JsonEq(back[key], j.members[key]) <==> ScalarSurvives(env, j.members[key])
    {
      ScalarRoundTripIff(env, j.members[key]);
    }
    if Survives(env, j) {
      assert back.Keys == j.members.Keys;
    }
  }

  /** The round trip, for every JSON value: converting to Lua and back succeeds with a
      JSON-equal value exactly if the value survives. */
  lemma RoundTripIff(env: Env, j: Json)
    requires Sane(env)
    ensures var r := ReadDeep(env, Denote(env, j));
            (r.Returns? && JsonEq(r.value, j)) <==> Survives(env, j)
  {
    match j
    case Arr(_) => ArrayRoundTripIff(env, j);
    case Obj(_) => ObjectRoundTripIff(env, j);
    case _ => ScalarRoundTripIff(env, j);
  }

  /** The same for the two stack programs run one after the other. */
  method ThereAndBack(L: LuaState, j: Json) returns (r: Outcome<Json>)
    requires L.Valid()
    modifies L
    ensures L.Valid()
    ensures (r.Returns? && JsonEq(r.value, j)) <==> Survives(L.env, j)
    ensures r.Returns? ==> |L.stack| == |old(L.stack)| + 1 && L.stack[..|old(L.stack)|] == old(L.stack)
  {
    JsonToValue(L, j);
    var top := |L.stack|;
    ghost var v := L.stack[top - 1];
    RepresentedReads(L.env, L.tables, old(L.nextId), v, Denote(L.env, j));
    RoundTripIff(L.env, j);
    if v.Table? {
      NewTablesHaveNoTwins(L.env, j, L.tables[v.id]);
      NoTwinsEnds(L.env, L.tables[v.id]);
    }
    r := ValueToJson(L, top);
  }

  lemma NewTablesHaveNoTwins(env: Env, j: Json, entries: Entries)
    requires Sane(env) && Denote(env, j).DTable? && entries.Keys == Denote(env, j).entries.Keys
    ensures NoTwins(env, entries)
  {
    match j
    case Arr(elems) => ArrayMeaning(env, j);
    case Obj(members) => ObjectTable(env, j, |env.items(members.Keys)|);
  }

  // ----- the assumptions on the environment can be met -----

  ghost function Listed<T(!new)>(keys: set<T>): (s: seq<T>)
    ensures forall k :: k in keys <==> k in s
    ensures |s| == |keys|
    ensures forall i, j | 0 <= i < j < |s| :: s[i] != s[j]
  {
    if keys == {} then []
    else
      var k :| k in keys;
      var rest := Listed(keys - {k});
      assert forall x :: x in keys <==> x == k || x in rest;
      [k] + rest
  }

  /** Array keys from 1 up, any other set of keys in some order. */
  ghost function InOrder(keys: set<Value>): seq<Value> {
    if keys == IndexSet(|keys|) then Indices(|keys|) else Listed(keys)
  }

  lemma SaneIsPossible()
    ensures exists env: Env :: Sane(env)
  {
    var env := Env(r => r, (keys: set<string>) => Listed(keys), (keys: set<Value>) => InOrder(keys), r => "");
    forall keys: set<string> ensures Enumerates(env.items(keys), keys) {}
    forall keys: set<Value> ensures Enumerates(env.order(keys), keys) {
      IndexSetSize(|keys|);
      if keys == IndexSet(|keys|) {
        forall k ensures k in keys <==> k in Indices(|keys|) {}
      }
    }
    forall n: nat ensures env.order(IndexSet(n)) == Indices(n) {
      IndexSetSize(n);
    }
    assert Sane(env);
  }
}
