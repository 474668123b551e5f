/**
 * The string operations the SQL builders of Database.php use: `implode`,
 * prefixing every element of a list (`array_map` with a closure that
 * interpolates the element), and the scan a PDO driver makes of a
 * statement for its named parameters `:name`.
 */
module Text {

  /** `implode($sep, $parts)`: the parts with `sep` between neighbours. */
  function Join(sep: string, parts: seq<string>): string
  {
    if |parts| == 0 then ""
    else if |parts| == 1 then parts[0]
    else parts[0] + sep + Join(sep, parts[1..])
  }

  /** Each string of `ks` with `p` in front of it, in the same order. */
  function Prefixed(p: string, ks: seq<string>): (r: seq<string>)
    ensures |r| == |ks|
  {
    seq(|ks|, i requires 0 <= i < |ks| => p + ks[i])
  }

  lemma PrefixedByNothing(ks: seq<string>)
    ensures Prefixed("", ks) == ks
  {
    forall i | 0 <= i < |ks| ensures Prefixed("", ks)[i] == ks[i] {
      assert "" + ks[i] == ks[i];
    }
  }

  /**
   * `implode` over two lists in a row is the two joins with one separator
   * between them: every part appears once, in order.
   */
  lemma {:induction false} JoinConcat(sep: string, a: seq<string>, b: seq<string>)
    requires a != [] && b != []
    ensures Join(sep, a + b) == Join(sep, a) + sep + Join(sep, b)
  {
    assert (a + b)[0] == a[0] && (a + b)[1..] == a[1..] + b;
    if |a| > 1 {
      JoinConcat(sep, a[1..], b);
    } else {
      assert a[1..] + b == b;
    }
  }

  /**
   * `p . implode($sep . p, $ks)` puts `p` in front of every element:
   * it is the join with `sep` of the prefixed elements, when `ks` is not
   * empty.
   */
  lemma {:induction false} PrefixDistributes(p: string, sep: string, ks: seq<string>)
    requires ks != []
    ensures p + Join(sep + p, ks) == Join(sep, Prefixed(p, ks))
  {
    if |ks| > 1 {
      PrefixDistributes(p, sep, ks[1..]);
      assert Prefixed(p, ks)[1..] == Prefixed(p, ks[1..]);
      calc {
        p + Join(sep + p, ks);
        p + (ks[0] + (sep + p) + Join(sep + p, ks[1..]));
        (p + ks[0]) + sep + (p + Join(sep + p, ks[1..]));
        Prefixed(p, ks)[0] + sep + Join(sep, Prefixed(p, ks)[1..]);
      }
    }
  }

  /** Characters that may follow `:` in a named parameter. */
  predicate IsNameChar(c: char)
  {
    'a' <= c <= 'z' || 'A' <= c <= 'Z' || '0' <= c <= '9' || c == '_'
  }

  /** A non-empty identifier: a column name that can also be a parameter name. */
  predicate IsName(s: string)
  {
    |s| > 0 && forall i :: 0 <= i < |s| ==> IsNameChar(s[i])
  }

  /**
   * No colon, quote, comment start (`-`, `#`, `/`) or positional marker
   * (`?`): text that neither starts a parameter nor hides one from a PDO
   * driver's scan.
   */
  predicate Inert(s: string)
  {
    forall i :: 0 <= i < |s| ==> s[i] !in ":'\"`-#/?"
  }

  /** The length of the longest prefix of `s` made of name characters. */
  function NameLength(s: string): (n: nat)
    ensures n <= |s|
    ensures forall i :: 0 <= i < n ==> IsNameChar(s[i])
    ensures n < |s| ==> !IsNameChar(s[n])
  {
    if s == [] || !IsNameChar(s[0]) then 0 else 1 + NameLength(s[1..])
  }

  /**
   * The named parameters `s` refers to, in order of appearance: every
   * `:` followed by one or more name characters, as a PDO driver reads
   * them.
   */
  function ParamNames(s: string): seq<string>
    decreases |s|
  {
    if s == [] then []
    else if s[0] == ':' && NameLength(s[1..]) > 0 then
      [s[1..1 + NameLength(s[1..])]] + ParamNames(s[1 + NameLength(s[1..])..])
    else ParamNames(s[1..])
  }

  lemma NameLengthOfName(k: string)
    requires IsName(k)
    ensures NameLength(k) == |k|
  {
  }

  lemma {:induction false} NameLengthStops(x: string, b: string)
    requires b == [] || !IsNameChar(b[0])
    ensures NameLength(x + b) == NameLength(x)
  {
    if x == [] {
      assert x + b == b;
    } else {
      assert (x + b)[1..] == x[1..] + b;
      if IsNameChar(x[0]) {
        NameLengthStops(x[1..], b);
      }
    }
  }

  /** Text without a colon refers to no parameter and does not change what follows it. */
  lemma {:induction false} InertPrefix(a: string, b: string)
    requires ':' !in a
    ensures ParamNames(a + b) == ParamNames(b)
  {
    if a == [] {
      assert a + b == b;
    } else {
      assert (a + b)[1..] == a[1..] + b;
      InertPrefix(a[1..], b);
    }
  }

  /** A parameter name cannot run across a boundary before a non-name character. */
  lemma {:induction false} ParamNamesSplit(a: string, b: string)
    requires b == [] || !IsNameChar(b[0])
    ensures ParamNames(a + b) == ParamNames(a) + ParamNames(b)
    decreases |a|
  {
    if a == [] {
      assert a + b == b;
    } else {
      var s := a + b;
      assert s[1..] == a[1..] + b;
      NameLengthStops(a[1..], b);
      var n := NameLength(a[1..]);
      if a[0] == ':' && n > 0 {
        assert s[1..1 + n] == a[1..1 + n];
        assert s[1 + n..] == a[1 + n..] + b;
        ParamNamesSplit(a[1 + n..], b);
      } else {
        ParamNamesSplit(a[1..], b);
      }
    }
  }

  /** `implode` adds no character that its parts and separator lack. */
  lemma {:induction false} JoinWithout(c: char, sep: string, parts: seq<string>)
    requires c !in sep
    requires forall i :: 0 <= i < |parts| ==> c !in parts[i]
    ensures c !in Join(sep, parts)
  {
    if |parts| > 1 {
      JoinWithout(c, sep, parts[1..]);
    }
  }

  /** Concatenating one-element lists gives back the list of their elements. */
  lemma {:induction false} ConcatSingletons(xs: seq<string>)
    ensures Concat(seq(|xs|, i requires 0 <= i < |xs| => [xs[i]])) == xs
  {
    if xs != [] {
      ConcatSingletons(xs[1..]);
      assert seq(|xs|, i requires 0 <= i < |xs| => [xs[i]])[1..]
          == seq(|xs[1..]|, i requires 0 <= i < |xs[1..]| => [xs[1..][i]]);
    }
  }

  lemma {:induction false} ParamNamesOfPlaceholder(k: string)
    requires IsName(k)
    ensures ParamNames(":" + k) == [k]
  {
    var s := ":" + k;
    assert s[1..] == k;
    NameLengthOfName(k);
    assert s[1..1 + |k|] == k;
    assert s[1 + |k|..] == [];
    assert ParamNames(s) == [k] + ParamNames([]);
  }

  function Concat(xss: seq<seq<string>>): seq<string>
  {
    if xss == [] then [] else xss[0] + Concat(xss[1..])
  }

  /**
   * The parameters of a joined list are those of its parts, in order,
   * when the separator holds none and starts with a non-name character.
   */
  lemma {:induction false} ParamNamesOfJoin(sep: string, parts: seq<string>)
    requires sep != [] && !IsNameChar(sep[0]) && Inert(sep)
    ensures ParamNames(Join(sep, parts)) == Concat(seq(|parts|, i requires 0 <= i < |parts| => ParamNames(parts[i])))
  {
    var each := seq(|parts|, i requires 0 <= i < |parts| => ParamNames(parts[i]));
    if |parts| == 1 {
      assert Concat(each) == ParamNames(parts[0]) + [];
    } else if |parts| > 1 {
      var rest := Join(sep, parts[1..]);
      ParamNamesOfJoin(sep, parts[1..]);
      assert each[1..] == seq(|parts[1..]|, i requires 0 <= i < |parts[1..]| => ParamNames(parts[1..][i]));
      assert parts[0] + sep + rest == parts[0] + (sep + rest);
      ParamNamesSplit(parts[0], sep + rest);
      InertPrefix(sep, rest);
    }
  }
}
