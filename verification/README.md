# Database access object: SQL builders and the lazy singleton

A model of `Database.php`, a PHP data-access class that wraps one PDO
connection. The class is a process-wide singleton created on first use by
`getInstance`, and it offers `insert`, `update` and `delete` operations
that build parameterised SQL from a table name and associative arrays of
column names and values.

The model covers the two parts whose behaviour does not depend on the
database:

- **The statement builders** (`statements.dfy`). A PHP array with string
  keys is an ordered sequence of `(key, value)` pairs (`assoc.dfy`).
  `implode`, the `:`-prefixing of placeholders and `array_merge` are
  written out (`assoc.dfy`, `text.dfy`). Each builder yields a
  `Statement`: the SQL text and the array handed to `execute`. Table and
  column names go into the text verbatim, with no quoting or escaping.
- **The lazily created instance** (`database.dfy`). `InstanceSlot` is the
  static `$instance` field. `GetInstance` fills it on the first
  successful call and returns the stored object from then on. The
  constructor's `new PDO(...)` is one opaque step that yields a
  connection handle or the driver's error message.

To relate each text to its parameter array, the model defines
`Text.ParamNames`. It lists the named parameters (`:` followed by letters,
digits or `_`) that a SQL text refers to, in order, as a PDO driver reads
them. For INSERT and DELETE, these names are exactly the keys of the array
given to `execute`.

UPDATE is modelled as the code is written. The text refers to `:where_k`
for every key `k` of `where`. The array given to `execute` is
`array_merge($data, $where)`, whose keys are not prefixed. The model proves
that the two do not line up. The `where_` prefix is evidently meant to
keep `data` and `where` parameters apart, but the array sent to the driver
does not use it; the model follows the code (see Findings).

The driver is a parameter of `Database.Insert`, `Update` and `Delete`: a
function from the connection and the statement to the driver's reply. The
error re-wrapping of the `catch` blocks is modelled as an error string
carrying the operation's fixed prefix.

## Model

| member | source | states |
|---|---|---|
| `Assoc.ArrayMerge` | Database.php:98 | the keys of `array_merge($data, $where)` are the union of both key sets, and no key occurs twice |
| `Assoc.ArrayMergeLookup` | Database.php:98 | on a key of `where` the merged array holds the `where` value, even when `data` has the same key; on other keys it holds the `data` value |
| `Assoc.ArrayMergeOrder` | Database.php:98 | merged keys are the keys of `data` in order, then the keys only `where` has, in their order; no key is renamed |
| `Text.PrefixDistributes` | Database.php:65 | `':' . implode(', :', keys)` equals the `", "`-join of the keys with `:` in front of each, for a non-empty key list |
| `Text.JoinConcat` | Database.php:64 | `implode` over two non-empty lists in a row is the first join, one separator, then the second join: every part appears once, in order |
| `Statements.InsertForm` | Database.php:64-68 | INSERT text is `INSERT INTO <table> (<k1, k2, ...>) VALUES (<:k1, :k2, ...>)`, with the same keys in the same order in both lists; empty `data` gives `() VALUES (:)`; the `execute` array is `data` itself |
| `Statements.InsertBindsExactly` | Database.php:64-68 | the parameters the INSERT text refers to are exactly the keys of its `execute` array, in order |
| `Statements.ConditionsParams` | Database.php:87-92 | a list of `k = :{prefix}k` entries joined by a separator refers to one parameter per key, in key order, each the key with the prefix in front |
| `Statements.UpdateParamNames` | Database.php:87-93 | UPDATE text refers first to the `data` keys (SET list, joined by `", "`), then to the `where` keys each prefixed `where_` (WHERE list, joined by `" AND "`); column names stay unprefixed |
| `Statements.UpdateParams` | Database.php:98 | UPDATE's `execute` array is `array_merge(data, where)`: its keys are the union of both key sets, in `data` order then new `where` keys; a shared key holds the `where` value |
| `Statements.UpdateParamsMismatch` | Database.php:90-98 | unless a key already starts with `where_`, every `:where_k` that UPDATE refers to is missing from its `execute` array; a key only `where` has is in that array but is never referred to |
| `Statements.UpdateExampleText` | Database.php:87-93 | `update('users', ['name' => 'Alice'], ['id' => '7'])` prepares `UPDATE users SET name = :name WHERE id = :where_id` |
| `Statements.UpdateMismatchExample` | Database.php:90-98 | that call's text refers to `name` and `where_id`, while `execute` receives the keys `name` and `id` |
| `Statements.IntendedUpdateBindsExactly` | Database.php:90-98 | with the `where` keys renamed to `where_k` before merging, the text's parameters and the array's keys are the same set, `:where_k` carries the value of `k` in `where`, and a SET parameter `:k` carries the value of `k` in `data` |
| `Statements.DeleteEmpty` | Database.php:116-119 | an empty `where` gives `DELETE FROM <table> WHERE ` with nothing after `WHERE ` |
| `Statements.DeleteBindsExactly` | Database.php:116-121 | DELETE text refers to the `where` keys as `k = :k`, joined by `" AND "`, and these are exactly the keys of its `execute` array, in order |
| `Database.Rethrow` | Database.php:70-71 | a driver reply passes through unchanged on success; a driver failure becomes an error that is the operation's prefix followed by the driver's message |
| `Database.ErrorKindsDistinct` | Database.php:19-124 | a connection, insert, update or delete failure can be told from the others by its text, whatever the driver said |
| `Database.Database.constructor` | Database.php:12-21 | a constructed instance holds the connection handle the driver opened |
| `Database.Database.Insert` | Database.php:61-72 | the driver receives exactly the INSERT statement on this instance's connection; its reply is the new id, or an `Insert error: ` failure |
| `Database.Database.Update` | Database.php:84-102 | the driver receives exactly the UPDATE statement with `array_merge(data, where)`; its reply is the row count, or an `Update error: ` failure |
| `Database.Database.Delete` | Database.php:113-125 | the driver receives exactly the DELETE statement with `where` as its array; its reply is the row count, or a `Delete error: ` failure |
| `Database.InstanceSlot.constructor` | Database.php:6 | the static slot starts empty |
| `Database.InstanceSlot.GetInstance` | Database.php:26-32 | a filled slot is returned unchanged with no new construction; an empty slot gets one construction attempt, whose object is stored and returned, or whose failure is a `Database connection error: ` and leaves the slot empty; at most one instance is ever created through the slot |
| `Database.GetInstanceTwice` | Database.php:26-32 | after a successful call, a second call returns the very same object and constructs nothing |

## Findings

| source | as written | input that shows it | evidently intended | confidence | as-written member | corrected member |
|---|---|---|---|---|---|---|
| Database.php:90-98 | the WHERE clause refers to `:where_k`, but `execute` gets `array_merge($data, $where)`, keyed by the bare `k` | `update('users', ['name' => 'Alice'], ['id' => '7'])`: the text refers to `name` and `where_id`; the array has keys `name` and `id` | `execute` receives the `where` values under the `where_k` names, so that each parameter in the text has exactly one value | not executed | `Statements.UpdateMismatchExample` | `Statements.IntendedUpdateBindsExactly` |

The general form of the mismatch is `Statements.UpdateParamsMismatch`. The
corrected array is `Statements.IntendedUpdateParams`. `Database.Update`
keeps the array as written, because that is what the code sends.

## Left out

- Connection setup (Database.php:12-21). Building the DSN and calling `new PDO` with the error mode is driver I/O, and `constants.php` is not part of this model. The constructor's outcome is the parameter `Connect`.
- `query` (Database.php:42-51). It only passes its arguments to `prepare`, `execute` and `fetchAll`, so it states nothing beyond the driver's own behaviour.
- What PDO and the database do with a statement: `prepare`, `execute`, `lastInsertId` and `rowCount`. This is the `driver` parameter. The `bindValue` loop (Database.php:95-97) is not modelled, including whether `execute` with an array discards those bindings.
- The conversion of `lastInsertId()`'s string to the declared `int` return type of `insert`. The driver's reply is an `int` already.
- Integer keys. PHP turns a key such as `"7"` into an integer, and `array_merge` renumbers integer keys. Keys here are strings only; column names are never numeric in practice.
- Text.ParamNames: PDO's scanner also skips quoted literals and comments, and reads `?` as a positional marker; this one does none of that. The lemmas that use it assume identifier keys and a table name that is `Inert`: no `:`, quote, `-`, `#`, `/` or `?`. Under those assumptions no quote, comment or positional marker can occur in the built text.
- Statements.IntendedUpdateBindsExactly: does not promise the `data` value for a column whose name starts with `where_`, because a `where` key `k` renamed to `where_k` can coincide with it, and then the `where` value wins.
- The private constructor (Database.php:12) is a public constructor of `Database` in the model. The promise that at most one instance exists holds for instances obtained through `InstanceSlot.GetInstance`.
- The private `__clone` (Database.php:131-133), concurrency and sharing one connection between callers. These are PHP and runtime mechanics with no counterpart in the model.
- Values are of an arbitrary type `V`. How PDO converts them when binding is not modelled.
