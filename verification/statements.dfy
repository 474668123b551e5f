/**
 * The SQL text and the parameter array that `insert`, `update` and
 * `delete` of Database.php build from the caller's table name and
 * associative arrays before handing them to PDO's `prepare` and
 * `execute`. Table and column names are interpolated verbatim, without
 * quoting or escaping; only values travel as bound parameters.
 */
module Statements {
  import opened Wrappers
  import opened Assoc
  import opened Text

  /** What is handed to the driver: the SQL text and the array given to `execute`. */
  datatype Statement<V> = Statement(sql: string, params: Assoc<V>)

  /** Every key is an identifier, so that `:key` is read as one parameter. */
  ghost predicate NamedKeys<V>(a: Assoc<V>)
  {
    forall i :: 0 <= i < |a| ==> IsName(a[i].0)
  }

  predicate HasPrefix(s: string, p: string)
  {
    |p| <= |s| && s[..|p|] == p
  }

  // ----- insert -----

  /** `implode(', ', array_keys($data))` */
  function InsertFields<V>(data: Assoc<V>): string
  {
    Join(", ", Keys(data))
  }

  /** `':' . implode(', :', array_keys($data))` */
  function InsertPlaceholders<V>(data: Assoc<V>): string
  {
    ":" + Join(", :", Keys(data))
  }

  function InsertSql<V>(table: string, data: Assoc<V>): string
  {
    "INSERT INTO " + table + " (" + InsertFields(data) + ") VALUES (" + InsertPlaceholders(data) + ")"
  }

  function Insert<V>(table: string, data: Assoc<V>): Statement<V>
  {
    Statement(InsertSql(table, data), data)
  }

  // ----- update and delete -----

  /** `array_map(fn($key) => "$key = :{prefix}$key", $keys)` */
  function Conditions(keys: seq<string>, prefix: string): (r: seq<string>)
    ensures |r| == |keys|
  {
    seq(|keys|, i requires 0 <= i < |keys| => keys[i] + " = :" + prefix + keys[i])
  }

  function SetClause<V>(data: Assoc<V>): string
  {
    Join(", ", Conditions(Keys(data), ""))
  }

  function UpdateWhereClause<V>(where: Assoc<V>): string
  {
    Join(" AND ", Conditions(Keys(where), "where_"))
  }

  function UpdateSql<V>(table: string, data: Assoc<V>, where: Assoc<V>): string
  {
    "UPDATE " + table + " SET " + SetClause(data) + " WHERE " + UpdateWhereClause(where)
  }

  /** The parameter array is `array_merge($data, $where)`, as written. */
  function Update<V>(table: string, data: Assoc<V>, where: Assoc<V>): Statement<V>
  {
    Statement(UpdateSql(table, data, where), ArrayMerge(data, where))
  }

  function DeleteWhereClause<V>(where: Assoc<V>): string
  {
    Join(" AND ", Conditions(Keys(where), ""))
  }

  function DeleteSql<V>(table: string, where: Assoc<V>): string
  {
    "DELETE FROM " + table + " WHERE " + DeleteWhereClause(where)
  }

  function Delete<V>(table: string, where: Assoc<V>): Statement<V>
  {
    Statement(DeleteSql(table, where), where)
  }

  // ----- the shape of the text -----

  /**
   * The column list and the placeholder list of an INSERT name the same
   * keys in the same order, the second with `:` in front of each; an
   * empty `data` gives the column text "" and the placeholder text ":".
   */
  lemma InsertForm<V>(table: string, data: Assoc<V>)
    ensures Insert(table, data).params == data
    ensures data == [] ==> Insert(table, data).sql == "INSERT INTO " + table + " () VALUES (:)"
    ensures data != [] ==>
      Insert(table, data).sql == "INSERT INTO " + table + " (" + Join(", ", Keys(data)) + ") VALUES ("
                                 + Join(", ", Prefixed(":", Keys(data))) + ")"
  {
    if data != [] {
      assert ", :" == ", " + ":";
      PrefixDistributes(":", ", ", Keys(data));
    }
  }

  /** An empty `where` leaves a DELETE ending in "WHERE " with nothing after it. */
  lemma DeleteEmpty<V>(table: string)
    ensures Delete<V>(table, []).sql == "DELETE FROM " + table + " WHERE "
    ensures Delete<V>(table, []).params == []
  {
  }

  // ----- which parameters the text refers to -----

  lemma {:induction false} ConditionParam(column: string, param: string)
    requires IsName(column) && IsName(param)
    ensures ParamNames(column + " = :" + param) == [param]
  {
    assert column + " = :" + param == column + (" = " + (":" + param));
    InertPrefix(column, " = " + (":" + param));
    InertPrefix(" = ", ":" + param);
    ParamNamesOfPlaceholder(param);
  }

  /**
   * A list of conditions `k = :{prefix}k` joined by a separator refers to
   * the parameters `{prefix}k`, one per key, in key order.
   */
  lemma {:induction false} ConditionsParams(sep: string, keys: seq<string>, prefix: string)
    requires sep != [] && !IsNameChar(sep[0]) && Inert(sep)
    requires forall i :: 0 <= i < |keys| ==> IsName(keys[i])
    requires forall i :: 0 <= i < |prefix| ==> IsNameChar(prefix[i])
    ensures ParamNames(Join(sep, Conditions(keys, prefix))) == Prefixed(prefix, keys)
  {
    var conds := Conditions(keys, prefix);
    var names := Prefixed(prefix, keys);
    ParamNamesOfJoin(sep, conds);
    forall i | 0 <= i < |keys|
      ensures ParamNames(conds[i]) == [names[i]]
    {
      assert IsName(names[i]) by {
        forall j | 0 <= j < |names[i]| ensures IsNameChar(names[i][j]) {
          if j >= |prefix| { assert names[i][j] == keys[i][j - |prefix|]; }
        }
      }
      assert conds[i] == keys[i] + " = :" + names[i];
      ConditionParam(keys[i], names[i]);
    }
    assert seq(|conds|, i requires 0 <= i < |conds| => ParamNames(conds[i]))
        == seq(|names|, i requires 0 <= i < |names| => [names[i]]);
    ConcatSingletons(names);
  }

  lemma InertHasNoColon(s: string)
    requires Inert(s)
    ensures ':' !in s
  {
  }

  lemma KeyNames<V>(a: Assoc<V>)
    requires NamedKeys(a)
    ensures forall i :: 0 <= i < |Keys(a)| ==> IsName(Keys(a)[i]) && ':' !in Keys(a)[i]
  {
  }

  /** Colon-free text around `mid`, ended by a non-name character, adds no parameter. */
  lemma Framed(head: string, mid: string, tail: string)
    requires ':' !in head && ':' !in tail
    requires tail == [] || !IsNameChar(tail[0])
    ensures ParamNames(head + mid + tail) == ParamNames(mid)
  {
    ParamNamesSplit(head + mid, tail);
    InertPrefix(head, mid);
    InertPrefix(tail, []);
    assert tail + [] == tail;
  }

  /** Two pieces of text in a colon-free frame keep their parameters, in order. */
  lemma Framed2(head: string, x: string, mid: string, y: string)
    requires ':' !in head && ':' !in mid
    requires mid != [] && !IsNameChar(mid[0])
    ensures ParamNames(head + x + mid + y) == ParamNames(x) + ParamNames(y)
  {
    assert head + x + mid + y == head + (x + (mid + y));
    InertPrefix(head, x + (mid + y));
    ParamNamesSplit(x, mid + y);
    InertPrefix(mid, y);
  }

  /**
   * INSERT refers to exactly the keys of the array given to `execute`,
   * in order: the statement's parameters and its bound values line up.
   */
  lemma InsertBindsExactly<V>(table: string, data: Assoc<V>)
    requires Inert(table) && NamedKeys(data)
    ensures ParamNames(Insert(table, data).sql) == Keys(Insert(table, data).params)
  {
    InsertForm(table, data);
    InertHasNoColon(table);
    KeyNames(data);
    JoinWithout(':', ", ", Keys(data));
    var head := "INSERT INTO " + table + " (" + InsertFields(data) + ") VALUES (";
    assert ':' !in head;
    Framed(head, InsertPlaceholders(data), ")");
    if data == [] {
      assert ParamNames(":") == [];
    } else {
      assert ", :" == ", " + ":";
      PrefixDistributes(":", ", ", Keys(data));
      ConditionsParamsPrefix(Keys(data));
    }
  }

  /** The placeholder list of a non-empty INSERT refers to the keys in order. */
  lemma ConditionsParamsPrefix(keys: seq<string>)
    requires keys != []
    requires forall i :: 0 <= i < |keys| ==> IsName(keys[i])
    ensures ParamNames(Join(", ", Prefixed(":", keys))) == keys
  {
    var marks := Prefixed(":", keys);
    ParamNamesOfJoin(", ", marks);
    forall i | 0 <= i < |keys| ensures ParamNames(marks[i]) == [keys[i]] {
      ParamNamesOfPlaceholder(keys[i]);
    }
    assert seq(|marks|, i requires 0 <= i < |marks| => ParamNames(marks[i]))
        == seq(|keys|, i requires 0 <= i < |keys| => [keys[i]]);
    ConcatSingletons(keys);
  }

  /**
   * DELETE refers to exactly the keys of the array given to `execute`, in
   * order, each as `k = :k`.
   */
  lemma DeleteBindsExactly<V>(table: string, where: Assoc<V>)
    requires Inert(table) && NamedKeys(where)
    ensures ParamNames(Delete(table, where).sql) == Keys(Delete(table, where).params)
  {
    InertHasNoColon(table);
    KeyNames(where);
    ConditionsParams(" AND ", Keys(where), "");
    PrefixedByNothing(Keys(where));
    var head := "DELETE FROM " + table + " WHERE ";
    Framed(head, DeleteWhereClause(where), "");
    assert head + DeleteWhereClause(where) + "" == Delete(table, where).sql;
  }

  /**
   * UPDATE refers first to the keys of `data`, unprefixed, from the SET
   * list, then to the keys of `where` with `where_` in front of each, from
   * the WHERE conjunction, both in key order.
   */
  lemma UpdateParamNames<V>(table: string, data: Assoc<V>, where: Assoc<V>)
    requires Inert(table) && NamedKeys(data) && NamedKeys(where)
    ensures ParamNames(Update(table, data, where).sql) == Keys(data) + Prefixed("where_", Keys(where))
  {
    InertHasNoColon(table);
    KeyNames(data);
    KeyNames(where);
    ConditionsParams(", ", Keys(data), "");
    PrefixedByNothing(Keys(data));
    ConditionsParams(" AND ", Keys(where), "where_");
    Framed2("UPDATE " + table + " SET ", SetClause(data), " WHERE ", UpdateWhereClause(where));
  }

  /**
   * The array UPDATE gives to `execute` is `array_merge($data, $where)`:
   * its keys are those of `data` in order followed by the keys only
   * `where` has; a key of both holds the value from `where`; no key is
   * renamed.
   */
  lemma UpdateParams<V>(table: string, data: Assoc<V>, where: Assoc<V>)
    requires Distinct(data) && Distinct(where)
    ensures Distinct(Update(table, data, where).params)
    ensures KeySet(Update(table, data, where).params) == KeySet(data) + KeySet(where)
    ensures Keys(Update(table, data, where).params) == Keys(data) + Unseen(Keys(where), KeySet(data))
    ensures forall k :: Lookup(Update(table, data, where).params, k)
                          == if k in KeySet(where) then Lookup(where, k) else Lookup(data, k)
  {
    ArrayMergeOrder(data, where);
    forall k ensures Lookup(ArrayMerge(data, where), k)
                     == if k in KeySet(where) then Lookup(where, k) else Lookup(data, k) {
      ArrayMergeLookup(data, where, k);
    }
  }

  ghost predicate NoWherePrefix<V>(a: Assoc<V>)
  {
    forall i :: 0 <= i < |a| ==> !HasPrefix(a[i].0, "where_")
  }

  lemma KeySetWitness<V>(a: Assoc<V>, k: string) returns (i: nat)
    requires k in KeySet(a)
    ensures i < |a| && a[i].0 == k
  {
    KeysMembers(a, k);
    i :| 0 <= i < |Keys(a)| && Keys(a)[i] == k;
    KeyAt(a, i);
  }

  /**
   * The UPDATE as written does not line up: unless some key already
   * starts with `where_`, the parameter `:where_k` the WHERE clause refers
   * to is no key of the array given to `execute`, and a key only `where`
   * has is in that array but is not referred to.
   */
  lemma UpdateParamsMismatch<V>(table: string, data: Assoc<V>, where: Assoc<V>)
    requires Inert(table) && NamedKeys(data) && NamedKeys(where)
    requires NoWherePrefix(data) && NoWherePrefix(where)
    ensures forall k :: k in KeySet(where) ==>
              "where_" + k in ParamNames(Update(table, data, where).sql)
              && "where_" + k !in KeySet(Update(table, data, where).params)
    ensures forall k :: k in KeySet(where) && k !in KeySet(data) ==>
              k in KeySet(Update(table, data, where).params)
              && k !in ParamNames(Update(table, data, where).sql)
  {
    var st := Update(table, data, where);
    var names := Prefixed("where_", Keys(where));
    UpdateParamNames(table, data, where);
    forall k | k in KeySet(where)
      ensures "where_" + k in ParamNames(st.sql) && "where_" + k !in KeySet(st.params)
    {
      var i := KeySetWitness(where, k);
      KeyAt(where, i);
      assert names[i] == "where_" + k;
      assert ParamNames(st.sql)[|Keys(data)| + i] == "where_" + k;
      var w := "where_" + k;
      assert HasPrefix(w, "where_") by { assert w[..6] == "where_"; }
      if w in KeySet(data) {
        var j := KeySetWitness(data, w);
      }
      if w in KeySet(where) {
        var j := KeySetWitness(where, w);
      }
    }
    forall k | k in KeySet(where) && k !in KeySet(data)
      ensures k !in ParamNames(st.sql)
    {
      KeysMembers(data, k);
      var i := KeySetWitness(where, k);
    }
  }

  /** `update('users', ['name' => 'Alice'], ['id' => '7'])`: the text it prepares. */
  lemma UpdateExampleText()
    ensures Update("users", [("name", "Alice")], [("id", "7")]).sql
         == "UPDATE users SET name = :name WHERE id = :where_id"
  {
  }

  /**
   * The same call, the mismatch: the text refers to `name` and
   * `where_id`, while `execute` receives the keys `name` and `id`.
   */
  lemma UpdateMismatchExample()
    ensures ParamNames(Update("users", [("name", "Alice")], [("id", "7")]).sql) == ["name", "where_id"]
    ensures Update("users", [("name", "Alice")], [("id", "7")]).params == [("name", "Alice"), ("id", "7")]
  {
    var data, where := [("name", "Alice")], [("id", "7")];
    assert Keys(data) == ["name"] && Keys(where) == ["id"];
    assert IsName("name") by { assert forall i :: 0 <= i < 4 ==> IsNameChar("name"[i]); }
    assert IsName("id") by { assert forall i :: 0 <= i < 2 ==> IsNameChar("id"[i]); }
    assert Inert("users");
    UpdateParamNames("users", data, where);
    assert "where_" + "id" == "where_id";
    assert Prefixed("where_", ["id"]) == ["where_id"];
    assert Put(data, "id", "7") == [("name", "Alice"), ("id", "7")];
  }

  // ----- the evidently intended UPDATE parameters -----

  /** Each key with `p` in front of it, values unchanged. */
  function PrefixKeys<V>(p: string, a: Assoc<V>): (r: Assoc<V>)
    ensures Keys(r) == Prefixed(p, Keys(a))
  {
    if a == [] then [] else [(p + a[0].0, a[0].1)] + PrefixKeys(p, a[1..])
  }

  /**
   * The parameter array the UPDATE's text calls for: the `data` entries
   * and the `where` entries under their `where_` names, i.e.
   * `array_merge($data, [':where_k' => v, ...])`.
   */
  function IntendedUpdateParams<V>(data: Assoc<V>, where: Assoc<V>): Assoc<V>
  {
    ArrayMerge(data, PrefixKeys("where_", where))
  }

  lemma {:induction false} PrefixKeysLookup<V>(p: string, a: Assoc<V>, k: string)
    ensures Lookup(PrefixKeys(p, a), p + k) == Lookup(a, k)
  {
    if a != [] {
      PrefixKeysLookup(p, a[1..], k);
      if a[0].0 != k {
        assert (p + a[0].0)[|p|..] == a[0].0;
        assert (p + k)[|p|..] == k;
      }
    }
  }

  lemma {:induction false} PrefixKeysDistinct<V>(p: string, a: Assoc<V>)
    requires Distinct(a)
    ensures Distinct(PrefixKeys(p, a))
  {
    if a != [] {
      PrefixKeysDistinct(p, a[1..]);
      var k := p + a[0].0;
      if k in KeySet(PrefixKeys(p, a[1..])) {
        PrefixKeysLookup(p, a[1..], a[0].0);
      }
    }
  }

  /** Every key of the prefixed array starts with the prefix. */
  lemma PrefixKeysHavePrefix<V>(p: string, a: Assoc<V>, k: string)
    requires k in KeySet(PrefixKeys(p, a))
    ensures HasPrefix(k, p)
  {
    KeysMembers(PrefixKeys(p, a), k);
    var i :| 0 <= i < |Keys(a)| && Prefixed(p, Keys(a))[i] == k;
    assert (p + Keys(a)[i])[..|p|] == p;
  }

  /**
   * With the intended array, every parameter the UPDATE refers to is a
   * key of the array given to `execute` and every key is referred to,
   * `:where_k` carries the value of `k` in `where`, and a SET parameter
   * `:k` carries the value of `k` in `data` (for a column name that does
   * not itself start with `where_`).
   */
  lemma IntendedUpdateBindsExactly<V>(table: string, data: Assoc<V>, where: Assoc<V>)
    requires Inert(table) && NamedKeys(data) && NamedKeys(where) && Distinct(where)
    ensures forall x ::
              x in ParamNames(UpdateSql(table, data, where)) <==> x in KeySet(IntendedUpdateParams(data, where))
    ensures forall k :: k in KeySet(where) ==>
              Lookup(IntendedUpdateParams(data, where), "where_" + k) == Lookup(where, k)
    ensures forall k :: k in KeySet(data) && !HasPrefix(k, "where_") ==>
              Lookup(IntendedUpdateParams(data, where), k) == Lookup(data, k)
  {
    var pw := PrefixKeys("where_", where);
    UpdateParamNames(table, data, where);
    forall x ensures x in ParamNames(UpdateSql(table, data, where)) <==> x in KeySet(IntendedUpdateParams(data, where)) {
      KeysMembers(data, x);
      KeysMembers(pw, x);
    }
    PrefixKeysDistinct("where_", where);
    forall k | k in KeySet(where)
      ensures Lookup(IntendedUpdateParams(data, where), "where_" + k) == Lookup(where, k)
    {
      ArrayMergeLookup(data, pw, "where_" + k);
      PrefixKeysLookup("where_", where, k);
    }
    forall k | k in KeySet(data) && !HasPrefix(k, "where_")
      ensures Lookup(IntendedUpdateParams(data, where), k) == Lookup(data, k)
    {
      ArrayMergeLookup(data, pw, k);
      if k in KeySet(pw) {
        PrefixKeysHavePrefix("where_", where, k);
      }
    }
  }
}
