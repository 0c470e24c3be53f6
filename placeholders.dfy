/**
 * Positional `?` placeholders and what filling them in means.
 *
 * `INSERT_GETID` turns a parameterised statement into plain SQL by replacing
 * every `?`, left to right, with the next parameter taken off a copy of the
 * parameter list: a string is wrapped in single quotes (without escaping), any
 * other value is written as its text, and once the list is used up `shift()`
 * yields `undefined`. `Spliced` is that substitution; it is also the reading of
 * "placeholder i holds parameter i" that the lemmas about the clause formatter
 * and the gateway use.
 */
module Placeholders {
  import opened Strings
  import opened JsValues

  /** What the `replace` callback returns for the parameter at the head of the list. */
  function Literal(v: Value): string
  {
    match v
    case Str(s) => "'" + s + "'"
    case _ => Text(v)
  }

  /** `params[0]`, which is `undefined` for an empty list. */
  function Next(queue: seq<Value>): Value
  {
    if queue == [] then Undefined else queue[0]
  }

  /** The list after `params.shift()`. */
  function Shift(queue: seq<Value>): seq<Value>
  {
    if queue == [] then [] else queue[1..]
  }

  /** The list after `n` shifts. */
  function Drop(queue: seq<Value>, n: nat): seq<Value>
  {
    if n >= |queue| then [] else queue[n..]
  }

  /** Number of placeholders in `sql`. */
  function PlaceholderCount(sql: string): nat
  {
    Count(sql, '?')
  }

  /**
   * `sql.replace(/\?/g, …)` with the callback of `INSERT_GETID`, consuming
   * `queue`: only placeholders are replaced, so text that does not start
   * with one keeps its first character.
   */
  function Spliced(sql: string, queue: seq<Value>): (r: string)
    ensures sql != [] && sql[0] != '?' ==> r != [] && r[0] == sql[0]
  {
    if sql == [] then ""
    else if sql[0] == '?' then Literal(Next(queue)) + Spliced(sql[1..], Shift(queue))
    else [sql[0]] + Spliced(sql[1..], queue)
  }

  /**
   * The substitution as the source performs it: one pass over the text with a
   * copy of the parameters that every placeholder shifts.
   */
  method SpliceParams(sql: string, params: seq<Value>) returns (plain: string)
    ensures plain == Spliced(sql, params)
  {
    var queue := params;
    var i := 0;
    plain := "";
    while i < |sql|
      invariant 0 <= i <= |sql|
      invariant plain + Spliced(sql[i..], queue) == Spliced(sql, params)
    {
      var piece, next := [sql[i]], queue;
      if sql[i] == '?' {
        piece, next := Literal(Next(queue)), Shift(queue);
      }
      assert Spliced(sql[i..], queue) == piece + Spliced(sql[i + 1..], next) by { SplicedStep(sql, i, queue); }
      ConcatAssoc(plain, piece, Spliced(sql[i + 1..], next));
      plain, queue := plain + piece, next;
      i := i + 1;
    }
    assert sql[i..] == [];
  }

  /** One step of the substitution, at position `i`. */
  lemma SplicedStep(sql: string, i: nat, queue: seq<Value>)
    requires i < |sql|
    ensures sql[i] == '?' ==> Spliced(sql[i..], queue) == Literal(Next(queue)) + Spliced(sql[i + 1..], Shift(queue))
    ensures sql[i] != '?' ==> Spliced(sql[i..], queue) == [sql[i]] + Spliced(sql[i + 1..], queue)
  {
    assert sql[i..][0] == sql[i] && sql[i..][1..] == sql[i + 1..];
  }

  /** Text without placeholders comes through unchanged. */
  lemma {:induction false} SplicedPlain(s: string, queue: seq<Value>)
    requires '?' !in s
    ensures Spliced(s, queue) == s
  {
    if s != [] {
      assert '?' !in s[1..];
      SplicedPlain(s[1..], queue);
    }
  }

  lemma DropShift(queue: seq<Value>, n: nat)
    ensures Drop(Shift(queue), n) == Drop(queue, n + 1)
  {
  }

  /** A leading placeholder of `a` is filled the same way in `a` and in `a + b`. */
  lemma SplicedConsHole(a: string, b: string, queue: seq<Value>)
    requires a != [] && a[0] == '?'
    ensures Spliced(a, queue) == Literal(Next(queue)) + Spliced(a[1..], Shift(queue))
    ensures Spliced(a + b, queue) == Literal(Next(queue)) + Spliced(a[1..] + b, Shift(queue))
    ensures PlaceholderCount(a) == 1 + PlaceholderCount(a[1..])
  {
    var ab := a + b;
    assert ab[0] == a[0] && ab[1..] == a[1..] + b;
  }

  /** A leading ordinary character of `a` is kept the same way in `a` and in `a + b`. */
  lemma SplicedConsChar(a: string, b: string, queue: seq<Value>)
    requires a != [] && a[0] != '?'
    ensures Spliced(a, queue) == [a[0]] + Spliced(a[1..], queue)
    ensures Spliced(a + b, queue) == [a[0]] + Spliced(a[1..] + b, queue)
    ensures PlaceholderCount(a) == PlaceholderCount(a[1..])
  {
    var ab := a + b;
    assert ab[0] == a[0] && ab[1..] == a[1..] + b;
  }

  /** Concatenation is associative. */
  lemma ConcatAssoc(a: string, b: string, c: string)
    ensures a + (b + c) == (a + b) + c
  {
  }

  /** The step of `SplicedConcat` for a leading placeholder, given the step for the rest. */
  lemma SplicedConcatHole(a: string, b: string, queue: seq<Value>)
    requires a != [] && a[0] == '?'
    requires Spliced(a[1..] + b, Shift(queue)) ==
      Spliced(a[1..], Shift(queue)) + Spliced(b, Drop(Shift(queue), PlaceholderCount(a[1..])))
    ensures Spliced(a + b, queue) == Spliced(a, queue) + Spliced(b, Drop(queue, PlaceholderCount(a)))
  {
    var n := PlaceholderCount(a[1..]);
    var lit, x, xy := Literal(Next(queue)), Spliced(a[1..], Shift(queue)), Spliced(a[1..] + b, Shift(queue));
    assert Spliced(a + b, queue) == lit + xy && Spliced(a, queue) == lit + x && PlaceholderCount(a) == n + 1 by {
      SplicedConsHole(a, b, queue);
    }
    assert Drop(Shift(queue), n) == Drop(queue, n + 1) by { DropShift(queue, n); }
    ConcatAssoc(lit, x, Spliced(b, Drop(queue, n + 1)));
  }

  /** The step of `SplicedConcat` for a leading ordinary character, given the step for the rest. */
  lemma SplicedConcatChar(a: string, b: string, queue: seq<Value>)
    requires a != [] && a[0] != '?'
    requires Spliced(a[1..] + b, queue) == Spliced(a[1..], queue) + Spliced(b, Drop(queue, PlaceholderCount(a[1..])))
    ensures Spliced(a + b, queue) == Spliced(a, queue) + Spliced(b, Drop(queue, PlaceholderCount(a)))
  {
    SplicedConsChar(a, b, queue);
    ConcatAssoc([a[0]], Spliced(a[1..], queue), Spliced(b, Drop(queue, PlaceholderCount(a))));
  }

  /** Substituting into `a + b`: `b` starts where `a` left the parameter list. */
  lemma {:induction false} SplicedConcat(a: string, b: string, queue: seq<Value>)
    ensures Spliced(a + b, queue) == Spliced(a, queue) + Spliced(b, Drop(queue, PlaceholderCount(a)))
  {
    if a == [] {
      assert a + b == b;
      assert Drop(queue, 0) == queue;
    } else if a[0] == '?' {
      SplicedConcat(a[1..], b, Shift(queue));
      SplicedConcatHole(a, b, queue);
    } else {
      SplicedConcat(a[1..], b, queue);
      SplicedConcatChar(a, b, queue);
    }
  }

  /** Parameters beyond the placeholders of `s` do not affect its substitution. */
  lemma {:induction false} SplicedExtraParams(s: string, queue: seq<Value>, extra: seq<Value>)
    requires PlaceholderCount(s) <= |queue|
    ensures Spliced(s, queue + extra) == Spliced(s, queue)
  {
    if s != [] {
      if s[0] == '?' {
        assert Next(queue + extra) == Next(queue);
        assert Shift(queue + extra) == Shift(queue) + extra;
        SplicedExtraParams(s[1..], Shift(queue), extra);
      } else {
        SplicedExtraParams(s[1..], queue, extra);
      }
    }
  }

  /**
   * Two fragments, each with its own parameter list: concatenating the texts
   * and the lists keeps every parameter with its fragment.
   */
  lemma SplicedSequence(a: string, b: string, pa: seq<Value>, pb: seq<Value>)
    requires PlaceholderCount(a) == |pa|
    ensures PlaceholderCount(a + b) == PlaceholderCount(a) + PlaceholderCount(b)
    ensures Spliced(a + b, pa + pb) == Spliced(a, pa) + Spliced(b, pb)
  {
    CountConcat(a, b, '?');
    SplicedConcat(a, b, pa + pb);
    SplicedExtraParams(a, pa, pb);
    assert Drop(pa + pb, |pa|) == pb;
  }

  /** Placeholder-free text in front leaves the count and the substitution of the rest alone. */
  lemma SplicedAfterPlain(a: string, b: string, queue: seq<Value>)
    requires '?' !in a
    ensures PlaceholderCount(a + b) == PlaceholderCount(b)
    ensures Spliced(a + b, queue) == a + Spliced(b, queue)
  {
    CountAbsent(a, '?');
    CountConcat(a, b, '?');
    SplicedConcat(a, b, queue);
    SplicedPlain(a, queue);
    assert Drop(queue, 0) == queue;
  }

  /**
   * Two fragments placed after plain text and separated by plain text: each
   * fragment keeps its own parameters.
   */
  lemma SplicedBetween(front: string, x: string, mid: string, y: string, px: seq<Value>, py: seq<Value>)
    requires '?' !in front && '?' !in mid
    requires PlaceholderCount(x) == |px|
    ensures PlaceholderCount(front + x + mid + y) == |px| + PlaceholderCount(y)
    ensures Spliced(front + x + mid + y, px + py) == front + Spliced(x, px) + mid + Spliced(y, py)
  {
    var rest := x + (mid + y);
    var sx, sy := Spliced(x, px), Spliced(y, py);
    assert front + x + mid + y == front + rest by {
      ConcatAssoc(front, x, mid + y);
      ConcatAssoc(front + x, mid, y);
    }
    assert Spliced(mid + y, py) == mid + sy && PlaceholderCount(mid + y) == PlaceholderCount(y) by {
      SplicedAfterPlain(mid, y, py);
    }
    assert Spliced(rest, px + py) == sx + (mid + sy) && PlaceholderCount(rest) == |px| + PlaceholderCount(y) by {
      SplicedSequence(x, mid + y, px, py);
    }
    assert Spliced(front + rest, px + py) == front + Spliced(rest, px + py)
        && PlaceholderCount(front + rest) == PlaceholderCount(rest) by {
      SplicedAfterPlain(front, rest, px + py);
    }
    assert front + (sx + (mid + sy)) == front + sx + mid + sy by {
      ConcatAssoc(front, sx, mid + sy);
      ConcatAssoc(front + sx, mid, sy);
    }
  }

  /** Two fragments joined by `, `, the first with exactly its own parameters: each keeps its own. */
  lemma CommaSpliced(x: string, y: string, px: seq<Value>, py: seq<Value>)
    requires PlaceholderCount(x) == |px|
    ensures Spliced(x + ", " + y, px + py) == Spliced(x, px) + ", " + Spliced(y, py)
  {
    var sx, sy := Spliced(x, px), Spliced(y, py);
    assert x + ", " + y == x + (", " + y);
    assert Spliced(", " + y, py) == ", " + sy by { SplicedAfterPlain(", ", y, py); }
    assert Spliced(x + (", " + y), px + py) == sx + (", " + sy) by { SplicedSequence(x, ", " + y, px, py); }
    assert sx + (", " + sy) == sx + ", " + sy;
  }

  /** A fragment with exactly one placeholder, as its last character. */
  predicate EndsInHole(p: string)
  {
    |p| > 0 && p[|p| - 1] == '?' && '?' !in p[..|p| - 1]
  }

  predicate AllEndInHole(parts: seq<string>)
  {
    forall i :: 0 <= i < |parts| ==> EndsInHole(parts[i])
  }

  /** Each part with its placeholder replaced by the matching parameter. */
  function Filled(parts: seq<string>, vs: seq<Value>): (r: seq<string>)
    requires AllEndInHole(parts) && |vs| == |parts|
    ensures |r| == |parts|
    ensures forall i :: 0 <= i < |parts| ==> r[i] == parts[i][..|parts[i]| - 1] + Literal(vs[i])
  {
    if parts == [] then []
    else [parts[0][..|parts[0]| - 1] + Literal(vs[0])] + Filled(parts[1..], vs[1..])
  }

  lemma HoleSplit(p: string)
    requires EndsInHole(p)
    ensures p == p[..|p| - 1] + "?"
  {
  }

  /** One trailing placeholder: the first parameter lands there, and only one is used. */
  lemma SplicedHole(p: string, queue: seq<Value>)
    requires EndsInHole(p)
    ensures PlaceholderCount(p) == 1
    ensures Spliced(p, queue) == p[..|p| - 1] + Literal(Next(queue))
  {
    var pre := p[..|p| - 1];
    HoleSplit(p);
    CountConcat(pre, "?", '?');
    CountAbsent(pre, '?');
    SplicedConcat(pre, "?", queue);
    SplicedPlain(pre, queue);
    assert Drop(queue, 0) == queue;
  }

  /** Joining one-placeholder parts with a plain separator: one placeholder per part. */
  lemma {:induction false} JoinHolesCount(parts: seq<string>, sep: string)
    requires AllEndInHole(parts) && '?' !in sep
    ensures PlaceholderCount(Join(parts, sep)) == |parts|
  {
    if |parts| == 1 {
      SplicedHole(parts[0], []);
    } else if |parts| > 1 {
      SplicedHole(parts[0], []);
      CountAbsent(sep, '?');
      JoinHolesCount(parts[1..], sep);
      CountConcat(parts[0], sep, '?');
      CountConcat(parts[0] + sep, Join(parts[1..], sep), '?');
      assert Join(parts, sep) == parts[0] + sep + Join(parts[1..], sep);
    }
  }

  /**
   * Joining one-placeholder parts with a plain separator and substituting the
   * parameters gives the join of the parts each holding its own parameter.
   */
  lemma {:induction false} JoinHolesSpliced(parts: seq<string>, sep: string, vs: seq<Value>)
    requires AllEndInHole(parts) && '?' !in sep && |vs| == |parts|
    ensures Spliced(Join(parts, sep), vs) == Join(Filled(parts, vs), sep)
  {
    if |parts| == 1 {
      SplicedHole(parts[0], vs);
    } else if |parts| > 1 {
      var rest := Join(parts[1..], sep);
      assert Join(parts, sep) == parts[0] + (sep + rest);
      SplicedHole(parts[0], vs);
      SplicedConcat(parts[0], sep + rest, vs);
      SplicedConcat(sep, rest, vs[1..]);
      CountAbsent(sep, '?');
      SplicedPlain(sep, vs[1..]);
      assert Drop(vs, 1) == vs[1..];
      assert Drop(vs[1..], 0) == vs[1..];
      JoinHolesSpliced(parts[1..], sep, vs[1..]);
      assert Filled(parts, vs)[1..] == Filled(parts[1..], vs[1..]);
    }
  }
}
