/**
 * The `Database` class of Database.php: one lazily created instance per
 * process, holding one PDO connection, and the `insert`, `update` and
 * `delete` operations that send a built statement to the driver and turn
 * a driver failure into an error with a fixed prefix. What the driver
 * and the remote database do with a statement is a parameter: a function
 * from the connection and the statement to the driver's reply.
 */
module Database {
  import opened Wrappers
  import opened Assoc
  import Statements

  /** The PDO handle the private constructor opens; its contents are not modelled. */
  datatype Connection = Connection(id: nat)

  /** What `new PDO(...)` in the private constructor gives: a handle, or the driver's message. */
  datatype Connect = Connected(handle: Connection) | ConnectFailed(message: string)

  /** The driver's answer to one statement: `lastInsertId()` or `rowCount()`, or a PDOException's message. */
  datatype Reply = Done(count: int) | DriverError(message: string)

  const ConnectionErrorPrefix := "Database connection error: "
  const InsertErrorPrefix := "Insert error: "
  const UpdateErrorPrefix := "Update error: "
  const DeleteErrorPrefix := "Delete error: "

  /** A `catch (PDOException $e)` block: the failure comes back as an error carrying `prefix` and the driver's message. */
  function Rethrow(prefix: string, reply: Reply): (r: Result<int, string>)
    ensures r.Success? <==> reply.Done?
    ensures r.Success? ==> r.value == reply.count
    ensures r.Failure? ==> |prefix| <= |r.error| && r.error[..|prefix|] == prefix && r.error[|prefix|..] == reply.message
  {
    match reply
    case Done(n) => Success(n)
    case DriverError(m) => Failure(prefix + m)
  }

  /** The four error kinds can be told apart by their text, whatever the driver said. */
  lemma ErrorKindsDistinct(r1: Reply, r2: Reply)
    requires r1.DriverError? && r2.DriverError?
    ensures Rethrow(InsertErrorPrefix, r1) != Rethrow(UpdateErrorPrefix, r2)
    ensures Rethrow(InsertErrorPrefix, r1) != Rethrow(DeleteErrorPrefix, r2)
    ensures Rethrow(UpdateErrorPrefix, r1) != Rethrow(DeleteErrorPrefix, r2)
    ensures Rethrow(InsertErrorPrefix, r1).error != ConnectionErrorPrefix + r2.message
    ensures Rethrow(UpdateErrorPrefix, r1).error != ConnectionErrorPrefix + r2.message
    ensures Rethrow(DeleteErrorPrefix, r1).error != ConnectionErrorPrefix + r2.message
  {
    assert (ConnectionErrorPrefix + r2.message)[1] == 'a';
    assert Rethrow(DeleteErrorPrefix, r1).error[1] == 'e';
  }

  class Database {
    const connection: Connection

    /** The private constructor, once `new PDO(...)` has succeeded. */
    constructor (handle: Connection)
      ensures connection == handle
    {
      connection := handle;
    }

    /** `insert`: the INSERT statement goes to the driver; its reply is the new row's id or an "Insert error: ". */
    method Insert<V>(table: string, data: Assoc<V>, driver: (Connection, Statements.Statement<V>) -> Reply)
      returns (r: Result<int, string>)
      ensures r == Rethrow(InsertErrorPrefix, driver(connection, Statements.Insert(table, data)))
    {
      var statement := Statements.Insert(table, data);
      r := Rethrow(InsertErrorPrefix, driver(connection, statement));
    }

    /** `update`: the UPDATE statement, with `array_merge($data, $where)` as its array, goes to the driver. */
    method Update<V>(table: string, data: Assoc<V>, where: Assoc<V>,
                     driver: (Connection, Statements.Statement<V>) -> Reply)
      returns (r: Result<int, string>)
      ensures r == Rethrow(UpdateErrorPrefix, driver(connection, Statements.Update(table, data, where)))
    {
      var statement := Statements.Update(table, data, where);
      r := Rethrow(UpdateErrorPrefix, driver(connection, statement));
    }

    /** `delete`: the DELETE statement goes to the driver; its reply is the number of rows removed or a "Delete error: ". */
    method Delete<V>(table: string, where: Assoc<V>, driver: (Connection, Statements.Statement<V>) -> Reply)
      returns (r: Result<int, string>)
      ensures r == Rethrow(DeleteErrorPrefix, driver(connection, Statements.Delete(table, where)))
    {
      var statement := Statements.Delete(table, where);
      r := Rethrow(DeleteErrorPrefix, driver(connection, statement));
    }
  }

  /**
   * The static slot `Database::$instance`: empty until the first
   * successful `getInstance`, then the one instance for the rest of the
   * process. `constructions` counts the instances ever created.
   */
  class InstanceSlot {
    var instance: Database?
    ghost var constructions: nat

    ghost predicate Valid()
      reads this
    {
      constructions <= 1 && (instance == null <==> constructions == 0)
    }

    constructor ()
      ensures Valid() && instance == null
    {
      instance := null;
      constructions := 0;
    }

    /**
     * `getInstance`: the stored instance if there is one; otherwise one
     * construction attempt, whose outcome is `attempt`, stored on
     * success and reported as a "Database connection error: " on failure.
     */
    method GetInstance(attempt: Connect) returns (r: Result<Database, string>)
      requires Valid()
      modifies this
      ensures Valid()
      ensures r.Success? ==> instance == r.value
      ensures old(instance) != null ==>
        r == Success(old(instance)) && instance == old(instance) && constructions == old(constructions)
      ensures old(instance) == null && attempt.Connected? ==>
        r.Success? && fresh(r.value) && r.value.connection == attempt.handle && constructions == 1
      ensures old(instance) == null && attempt.ConnectFailed? ==>
        r == Failure(ConnectionErrorPrefix + attempt.message) && instance == null && constructions == 0
    {
      if instance == null {
        match attempt
        case Connected(handle) =>
          var db := new Database(handle);
          instance := db;
          constructions := 1;
        case ConnectFailed(message) =>
          return Failure(ConnectionErrorPrefix + message);
      }
      r := Success(instance);
    }
  }

  /**
   * Two calls of `getInstance`: once the first has succeeded, the second
   * returns the very same object and constructs nothing, whatever its
   * own connection attempt would have given.
   */
  method GetInstanceTwice(slot: InstanceSlot, first: Connect, second: Connect)
    returns (r1: Result<Database, string>, r2: Result<Database, string>)
    requires slot.Valid()
    modifies slot
    ensures slot.Valid()
    ensures r1.Success? ==> r2 == r1 && slot.instance == r1.value
    ensures r1.Success? ==> slot.constructions == 1
  {
    r1 := slot.GetInstance(first);
    r2 := slot.GetInstance(second);
  }
}
