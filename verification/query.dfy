/** `db.Prep` of pkg/server/db: named query arguments `:name` become Postgres positional
    parameters `$n`, where `n` is the argument's 1-based position among all arguments, and
    the argument list becomes the list of values. The rewrite is Go's
    `strings.NewReplacer`: one left-to-right pass, non-overlapping, and where several keys
    match at one position the key given first wins. */
module Query {
  import opened Base
  import GoStrings

  datatype Arg<V> = Named(name: string, value: V) | Positional(value: V)

  /** The replacement pairs Prep hands to `strings.NewReplacer`, in argument order, for
      the arguments from index `i` on. */
  function Pairs<V>(args: seq<Arg<V>>, i: nat): (r: seq<(string, string)>)
    requires i <= |args|
    ensures forall k :: 0 <= k < |r| ==> |r[k].0| > 0 && r[k].0[0] == ':'
    decreases |args| - i
  {
    if i == |args| then []
    else
      var rest := Pairs(args, i + 1);
      match args[i]
      case Named(n, _) => [(":" + n, "$" + GoStrings.FormatInt(i + 1, 10))] + rest
      case Positional(_) => rest
  }

  /** The first key, in argument order, that `s` starts with. */
  function FirstMatch(s: string, pairs: seq<(string, string)>): (r: Option<nat>)
    ensures r.Some? ==> r.value < |pairs| && GoStrings.HasPrefix(s, pairs[r.value].0)
    ensures r.Some? ==> forall k :: 0 <= k < r.value ==> !GoStrings.HasPrefix(s, pairs[k].0)
    ensures r.None? ==> forall k :: 0 <= k < |pairs| ==> !GoStrings.HasPrefix(s, pairs[k].0)
  {
    if |pairs| == 0 then None
    else if GoStrings.HasPrefix(s, pairs[0].0) then Some(0)
    else
      match FirstMatch(s, pairs[1..])
      case None => None
      case Some(k) => Some(k + 1)
  }

  /** `strings.NewReplacer(pairs...).Replace(s)` for non-empty keys. */
  function Replace(s: string, pairs: seq<(string, string)>): (r: string)
    requires forall k :: 0 <= k < |pairs| ==> |pairs[k].0| > 0
    decreases |s|
  {
    if |s| == 0 then ""
    else
      match FirstMatch(s, pairs)
      case Some(k) => pairs[k].1 + Replace(s[|pairs[k].0|..], pairs)
      case None => [s[0]] + Replace(s[1..], pairs)
  }

  /** The argument values, named or not, in order. */
  function Values<V>(args: seq<Arg<V>>): (r: seq<V>)
    ensures |r| == |args|
    ensures forall i :: 0 <= i < |args| ==> r[i] == args[i].value
  {
    if |args| == 0 then [] else [args[0].value] + Values(args[1..])
  }

  /** `Prep`. */
  function Prep<V>(query: string, args: seq<Arg<V>>): (r: (string, seq<V>))
    ensures |r.1| == |args| && forall i :: 0 <= i < |args| ==> r.1[i] == args[i].value
    ensures (forall i :: 0 <= i < |args| ==> args[i].Positional?) ==> r.0 == query
    ensures ':' !in query ==> r.0 == query
  {
    var pairs := Pairs(args, 0);
    PairsOfPositional(args, 0);
    ReplaceWithoutColon(query, pairs);
    (Replace(query, pairs), Values(args))
  }

  lemma {:induction false} PairsOfPositional<V>(args: seq<Arg<V>>, i: nat)
    requires i <= |args|
    ensures (forall k :: i <= k < |args| ==> args[k].Positional?) ==> Pairs(args, i) == []
    decreases |args| - i
  {
    if i < |args| {
      PairsOfPositional(args, i + 1);
    }
  }

  /** A query in which no key occurs is left alone; with only `:`-keys, that covers every
      query without a colon, and every query when there are no keys. */
  lemma {:induction false} ReplaceWithoutColon(s: string, pairs: seq<(string, string)>)
    requires forall k :: 0 <= k < |pairs| ==> |pairs[k].0| > 0 && pairs[k].0[0] == ':'
    ensures ':' !in s || |pairs| == 0 ==> Replace(s, pairs) == s
    decreases |s|
  {
    if |s| > 0 && (':' !in s || |pairs| == 0) {
      assert FirstMatch(s, pairs).None? by {
        if |pairs| > 0 {
          assert forall k :: 0 <= k < |pairs| ==> !GoStrings.HasPrefix(s, pairs[k].0);
        }
      }
      assert ':' !in s ==> ':' !in s[1..];
      ReplaceWithoutColon(s[1..], pairs);
      assert s == [s[0]] + s[1..];
    }
  }

  /** Unmatched text is copied: a query that starts with a character no key starts with
      keeps that character. */
  lemma {:induction false} ReplaceCopiesPlainText(c: char, rest: string, pairs: seq<(string, string)>)
    requires forall k :: 0 <= k < |pairs| ==> |pairs[k].0| > 0 && pairs[k].0[0] == ':'
    requires c != ':'
    ensures Replace([c] + rest, pairs) == [c] + Replace(rest, pairs)
  {
    var s := [c] + rest;
    assert FirstMatch(s, pairs).None? by {
      assert forall k :: 0 <= k < |pairs| ==> !GoStrings.HasPrefix(s, pairs[k].0);
    }
    assert s[1..] == rest;
  }

  /** At a placeholder the first matching key in argument order is consumed whole and
      replaced by its positional parameter, and the rest of the query is rewritten on its
      own. */
  lemma {:induction false} ReplaceAtKey(s: string, pairs: seq<(string, string)>, k: nat)
    requires forall j :: 0 <= j < |pairs| ==> |pairs[j].0| > 0
    requires k < |pairs| && GoStrings.HasPrefix(s, pairs[k].0)
    requires forall j :: 0 <= j < k ==> !GoStrings.HasPrefix(s, pairs[j].0)
    ensures Replace(s, pairs) == pairs[k].1 + Replace(s[|pairs[k].0|..], pairs)
  {
    var m := FirstMatch(s, pairs);
    assert m.Some? && !(m.value < k) && !(m.value > k);
  }

  /** Text without a colon before the first placeholder is copied unchanged. */
  lemma {:induction false} ReplacePlainPrefix(p: string, t: string, pairs: seq<(string, string)>)
    requires forall k :: 0 <= k < |pairs| ==> |pairs[k].0| > 0 && pairs[k].0[0] == ':'
    requires ':' !in p
    ensures Replace(p + t, pairs) == p + Replace(t, pairs)
  {
    if |p| > 0 {
      var c, rest := p[0], p[1..];
      assert ':' !in rest by {
        assert forall i :: 0 <= i < |rest| ==> rest[i] == p[i + 1];
      }
      calc {
        Replace(p + t, pairs);
        { assert p + t == [c] + (rest + t); }
        Replace([c] + (rest + t), pairs);
        { ReplaceCopiesPlainText(c, rest + t, pairs); }
        [c] + Replace(rest + t, pairs);
        { ReplacePlainPrefix(rest, t, pairs); }
        [c] + (rest + Replace(t, pairs));
        { assert [c] + (rest + Replace(t, pairs)) == p + Replace(t, pairs); }
        p + Replace(t, pairs);
      }
    } else {
      assert p + t == t;
    }
  }

  /** Two strings that differ inside both are not prefixes of one another. */
  lemma DiffersAt(s: string, key: string, i: nat)
    requires i < |s| && i < |key| && s[i] != key[i]
    ensures !GoStrings.HasPrefix(s, key)
  {
  }

  /** A colon-free stretch followed by a placeholder: the stretch is copied and the
      placeholder replaced, provided no earlier key also matches there. */
  lemma ReplaceSegment(p: string, t: string, pairs: seq<(string, string)>, k: nat)
    requires forall j :: 0 <= j < |pairs| ==> |pairs[j].0| > 0 && pairs[j].0[0] == ':'
    requires ':' !in p && k < |pairs|
    requires forall j :: 0 <= j < k ==> !GoStrings.HasPrefix(pairs[k].0 + t, pairs[j].0)
    ensures Replace(p + pairs[k].0 + t, pairs) == p + pairs[k].1 + Replace(t, pairs)
  {
    var key := pairs[k].0;
    assert p + key + t == p + (key + t);
    ReplacePlainPrefix(p, key + t, pairs);
    assert (key + t)[..|key|] == key;
    ReplaceAtKey(key + t, pairs, k);
    assert (key + t)[|key|..] == t;
  }

  /** One named argument: a query whose only colon starts its placeholder, with nothing
      after it, gets `$1` in its place, and the value is passed through. */
  lemma SingleNamedArgument<V>(prefix: string, name: string, v: V)
    requires ':' !in prefix
    ensures Prep(prefix + ":" + name, [Named(name, v)]) == (prefix + "$1", [v])
  {
    var args := [Named(name, v)];
    var pairs := Pairs(args, 0);
    assert pairs == [(":" + name, "$1")] by {
      assert GoStrings.FormatInt(1, 10) == "1";
      assert "$" + "1" == "$1";
      assert Pairs(args, 1) == [];
    }
    var key := ":" + name;
    ReplaceAtKey(key, pairs, 0);
    assert key[|key|..] == "";
    assert Replace(key, pairs) == "$1" + Replace("", pairs);
    ReplacePlainPrefix(prefix, key, pairs);
    assert prefix + ":" + name == prefix + key;
    assert Replace(prefix + key, pairs) == prefix + "$1";
    assert Values(args) == [v];
  }

  /** As written, a name that is a prefix of a later argument's name captures the later
      placeholder: the earlier key matches first and the rest of the later name is copied
      as text. */
  lemma PrefixNameCapturesAny<V>(name: string, suffix: string, a: V, b: V)
    requires ':' !in suffix
    ensures Prep(":" + name + suffix, [Named(name, a), Named(name + suffix, b)]).0 == "$1" + suffix
  {
    var args := [Named(name, a), Named(name + suffix, b)];
    var pairs := Pairs(args, 0);
    var key := ":" + name;
    assert GoStrings.FormatInt(1, 10) == "1" && GoStrings.FormatInt(2, 10) == "2";
    assert Pairs(args, 2) == [];
    assert Pairs(args, 1) == [(":" + (name + suffix), "$2")] by {
      assert "$" + "2" == "$2";
    }
    assert "$" + "1" == "$1";
    assert pairs == [(key, "$1"), (":" + (name + suffix), "$2")];
    assert (key + suffix)[..|key|] == key;
    ReplaceAtKey(key + suffix, pairs, 0);
    assert (key + suffix)[|key|..] == suffix;
    ReplaceWithoutColon(suffix, pairs);
  }

  /** With `user` given before `userID`, `:userID` becomes `$1ID`. */
  lemma PrefixNameCaptures<V>(a: V, b: V)
    ensures Prep(":userID", [Named("user", a), Named("userID", b)]).0 == "$1ID"
  {
    PrefixNameCapturesAny("user", "ID", a, b);
    assert ":" + "user" + "ID" == ":userID" && "user" + "ID" == "userID" && "$1" + "ID" == "$1ID";
  }
}
