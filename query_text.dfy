/** SQL text built piece by piece with numbered `$n` placeholders, as the two
    search handlers build it, and the invariant that ties each placeholder to
    the parameter array sent with the text. */
module QueryText {
  import opened Js

  /** A value in the parameter array: text from the query string, or a number. */
  datatype SqlValue = SqlText(s: string) | SqlNumber(x: Number)

  /** A piece of SQL text: literal text, or the placeholder `$n` together with
      the value the handler means it to stand for. */
  datatype Piece = Sql(s: string) | Param(n: nat, binds: SqlValue)

  /** The text sent to the database. */
  function Render(q: seq<Piece>): string {
    if q == [] then ""
    else (match q[0] case Sql(s) => s case Param(n, _) => "$" + DecimalText(n)) + Render(q[1..])
  }

  lemma {:induction false} RenderAppend(q1: seq<Piece>, q2: seq<Piece>)
    ensures Render(q1 + q2) == Render(q1) + Render(q2)
    decreases |q1|
  {
    if q1 != [] {
      assert (q1 + q2)[0] == q1[0] && (q1 + q2)[1..] == q1[1..] + q2;
      RenderAppend(q1[1..], q2);
    } else {
      assert q1 + q2 == q2;
    }
  }

  /** The text of a placeholder names its number: reading the digits after the
      `$` back gives `n`. */
  lemma RenderParam(n: nat, v: SqlValue)
    ensures var text := Render([Param(n, v)]);
      |text| >= 2 && text[0] == '$' && ParseInt(text[1..]) == Some(n)
  {
    var text := Render([Param(n, v)]);
    assert text == "$" + DecimalText(n);
    assert text[1..] == DecimalText(n);
    ParseIntOfDecimalText(n);
  }

  /** Placeholder n refers to params[n-1], and that is the value it was meant to bind. */
  predicate PlaceholdersBound(q: seq<Piece>, params: seq<SqlValue>) {
    forall i :: 0 <= i < |q| && q[i].Param? ==> 1 <= q[i].n <= |params| && params[q[i].n - 1] == q[i].binds
  }

  /** The placeholder numbers of a query, in order of appearance. */
  function Numbers(q: seq<Piece>): (ns: seq<nat>)
    ensures forall n :: n in ns <==> exists i :: 0 <= i < |q| && q[i].Param? && q[i].n == n
  {
    if q == [] then []
    else
      var rest := Numbers(q[1..]);
      assert forall i :: 1 <= i < |q| ==> q[i] == q[1..][i - 1];
      (if q[0].Param? then [q[0].n] else []) + rest
  }

  /** Pushing more parameters does not disturb the placeholders already written. */
  lemma BoundExtends(q: seq<Piece>, params: seq<SqlValue>, more: seq<SqlValue>)
    requires PlaceholdersBound(q, params)
    ensures PlaceholdersBound(q, params + more)
  {
    forall i | 0 <= i < |q| && q[i].Param?
      ensures 1 <= q[i].n <= |params + more| && (params + more)[q[i].n - 1] == q[i].binds
    {
      assert (params + more)[q[i].n - 1] == params[q[i].n - 1];
    }
  }

  lemma BoundAppend(q1: seq<Piece>, q2: seq<Piece>, params: seq<SqlValue>)
    requires PlaceholdersBound(q1, params) && PlaceholdersBound(q2, params)
    ensures PlaceholdersBound(q1 + q2, params)
  {
    forall i | 0 <= i < |q1 + q2| && (q1 + q2)[i].Param?
      ensures 1 <= (q1 + q2)[i].n <= |params| && params[(q1 + q2)[i].n - 1] == (q1 + q2)[i].binds
    {
      if i < |q1| {
        assert (q1 + q2)[i] == q1[i];
      } else {
        assert (q1 + q2)[i] == q2[i - |q1|];
      }
    }
  }

  /** A bound query uses no placeholder beyond the parameters it is sent with. */
  lemma BoundNumbers(q: seq<Piece>, params: seq<SqlValue>)
    requires PlaceholdersBound(q, params)
    ensures forall n :: n in Numbers(q) ==> 1 <= n <= |params|
  {
  }

  /** `Math.ceil(total / limit)` for a nonzero integer limit. */
  function CeilDiv(total: nat, limit: int): (r: int)
    requires limit != 0
    ensures limit > 0 ==> (r - 1) * limit < total <= r * limit
    ensures limit < 0 ==> r * limit <= total < (r - 1) * limit
  {
    if limit > 0 then (total + limit - 1) / limit else -(total / -limit)
  }

  /** `(page - 1) * limit` with JavaScript's coercion of the operands. */
  function Offset(page: Number, limit: Number): (r: Number)
    ensures page.Num? && limit.Num? ==> r == Num((page.n - 1) * limit.n)
    ensures page.NaN? || limit.NaN? ==> r.NaN?
  {
    if page.Num? && limit.Num? then Num((page.n - 1) * limit.n) else NaN
  }

  /** `Math.ceil(total / limit)` as `res.json` writes it: a NaN or infinite
      quotient is written as null. */
  function TotalPages(total: nat, limit: Number): (r: Option<int>)
    ensures limit.Num? && limit.n > 0 ==> r.Some? && (r.value - 1) * limit.n < total <= r.value * limit.n
    ensures limit.NaN? || (limit.Num? && limit.n == 0) ==> r.None?
  {
    if limit.NaN? || limit.n == 0 then None else Some(CeilDiv(total, limit.n))
  }

  /** A query-string value coerced by arithmetic; an absent value takes the default. */
  function NumberOr(v: Option<string>, default: int): (x: Number)
    ensures v.None? ==> x == Num(default)
  {
    if v.Some? then ToNumber(v.value) else Num(default)
  }

  /** A query-string value pushed as a parameter; an absent value pushes the numeric default. */
  function ValueOr(v: Option<string>, default: int): (x: SqlValue)
    ensures v.Some? ==> x == SqlText(v.value)
    ensures v.None? ==> x == SqlNumber(Num(default))
  {
    if v.Some? then SqlText(v.value) else SqlNumber(Num(default))
  }

  /** `if (v)`: present and not the empty string. */
  predicate Truthy(v: Option<string>) {
    v.Some? && v.value != ""
  }

  // ---------------------------------------------------------------------
  // The count rewrite: `query.replace(/<open>.*?<close>/, replacement)`

  /** The characters `.` does not match unless the `s` flag is set. */
  predicate LineTerminator(c: char) {
    c == '\n' || c == '\r' || c == '\U{2028}' || c == '\U{2029}'
  }

  /** Where the lazy `.*?` that starts at `j` and the `close` after it end: just
      after the first `close`, unless `.` meets a line terminator first, which
      it only matches with the `s` flag (`dotAll`). */
  function LazyTo(s: string, j: nat, close: string, dotAll: bool): (r: Option<nat>)
    requires j <= |s|
    ensures r.Some? ==> j <= r.value <= |s|
    decreases |s| - j
  {
    if OccursAt(s, close, j) then Some(j + |close|)
    else if j == |s| || (!dotAll && LineTerminator(s[j])) then None
    else LazyTo(s, j + 1, close, dotAll)
  }

  /** The leftmost match of `/<open>.*?<close>/` that starts at `i` or later, as
      its start and end. */
  function FirstMatch(s: string, i: nat, open: string, close: string, dotAll: bool): (r: Option<(nat, nat)>)
    requires i <= |s|
    ensures r.Some? ==> i <= r.value.0 <= r.value.1 <= |s|
    decreases |s| - i
  {
    if OccursAt(s, open, i) && LazyTo(s, i + |open|, close, dotAll).Some? then
      Some((i, LazyTo(s, i + |open|, close, dotAll).value))
    else if i == |s| then None
    else FirstMatch(s, i + 1, open, close, dotAll)
  }

  /** `s.replace(/<open>.*?<close>/, replacement)`: the first match, if there is one, becomes `replacement`. */
  function ReplaceFirst(s: string, open: string, close: string, dotAll: bool, replacement: string): string {
    match FirstMatch(s, 0, open, close, dotAll)
    case None => s
    case Some((a, b)) => s[..a] + replacement + s[b..]
  }

  /** `t` occurs nowhere between `from` and `to`. */
  predicate Absent(s: string, t: string, from: nat, to: nat)
    decreases if from < to then to - from else 0
  {
    from >= to || (!OccursAt(s, t, from) && Absent(s, t, from + 1, to))
  }

  lemma {:induction false} AbsentFromAll(s: string, t: string, from: nat, to: nat)
    requires forall k :: from <= k < to ==> !OccursAt(s, t, k)
    ensures Absent(s, t, from, to)
    decreases if from < to then to - from else 0
  {
    if from < to {
      AbsentFromAll(s, t, from + 1, to);
    }
  }

  /** The lazy `.*?` runs to the first `close` when nothing stops it before. */
  lemma {:induction false} LazyToReaches(s: string, j: nat, e: nat, close: string, dotAll: bool)
    requires j <= e && OccursAt(s, close, e)
    requires Absent(s, close, j, e)
    requires !dotAll ==> forall k :: j <= k < e ==> !LineTerminator(s[k])
    ensures LazyTo(s, j, close, dotAll) == Some(e + |close|)
    decreases e - j
  {
    if j < e {
      LazyToReaches(s, j + 1, e, close, dotAll);
    }
  }

  /** Positions where `open` does not occur are skipped. */
  lemma {:induction false} NoOpenSkips(s: string, i: nat, stop: nat, open: string, close: string, dotAll: bool,
                                       r: Option<(nat, nat)>)
    requires i <= stop <= |s| && FirstMatch(s, stop, open, close, dotAll) == r
    requires Absent(s, open, i, stop)
    ensures FirstMatch(s, i, open, close, dotAll) == r
    decreases stop - i
  {
    if i < stop {
      NoOpenSkips(s, i + 1, stop, open, close, dotAll, r);
    }
  }

  /** `open` cannot occur where its first character does not. */
  lemma NoFirstCharNoOpen(s: string, k: nat, open: string)
    requires open != [] && k < |s| && s[k] != open[0]
    ensures !OccursAt(s, open, k)
  {
  }

  /** `t` cannot occur at `i` when the text differs from it `m` characters on. */
  lemma MismatchNoOccurrence(s: string, t: string, i: nat, m: nat)
    requires m < |t| && i + m < |s| && s[i + m] != t[m]
    ensures !OccursAt(s, t, i)
  {
    if i + |t| <= |s| {
      assert s[i..i + |t|][m] == s[i + m];
    }
  }

  /** An occurrence inside a copy of `u` at `off` is an occurrence in `u`. */
  lemma OccursShift(s: string, u: string, off: nat, m: nat, t: string)
    requires off + |u| <= |s| && s[off..off + |u|] == u && m + |t| <= |u|
    ensures OccursAt(s, t, off + m) <==> OccursAt(u, t, m)
  {
    var w, v := s[off + m..off + m + |t|], u[m..m + |t|];
    forall i | 0 <= i < |t|
      ensures w[i] == v[i]
    {
      assert s[off..off + |u|][m + i] == s[off + m + i];
    }
    assert w == v;
  }

  /** A match that starts at `at` and ends at the first `close` after `open`,
      with the `s` flag. */
  lemma MatchHere(s: string, at: nat, e: nat, open: string, close: string)
    requires at + |open| <= e && OccursAt(s, open, at) && OccursAt(s, close, e)
    requires Absent(s, close, at + |open|, e)
    ensures FirstMatch(s, at, open, close, true) == Some((at, e + |close|))
  {
    LazyToReaches(s, at + |open|, e, close, true);
  }

  /** The leftmost match of a text whose first `open` is at `at` and whose
      first `close` after it is at `e`, with the `s` flag. */
  lemma LeftmostMatch(s: string, at: nat, e: nat, open: string, close: string)
    requires at + |open| <= e && OccursAt(s, open, at) && OccursAt(s, close, e)
    requires Absent(s, open, 0, at) && Absent(s, close, at + |open|, e)
    ensures FirstMatch(s, 0, open, close, true) == Some((at, e + |close|))
  {
    MatchHere(s, at, e, open, close);
    NoOpenSkips(s, 0, at, open, close, true, Some((at, e + |close|)));
  }

  /** The rewrite replaces exactly the leftmost match. */
  lemma ReplaceMatch(s: string, open: string, close: string, dotAll: bool, replacement: string, a: nat, b: nat)
    requires FirstMatch(s, 0, open, close, dotAll) == Some((a, b))
    ensures ReplaceFirst(s, open, close, dotAll, replacement) == s[..a] + replacement + s[b..]
  {
  }

  /** `open` does not start inside a prefix free of its first character. */
  lemma PrefixFree(s: string, lead: string, open: string)
    requires |lead| <= |s| && s[..|lead|] == lead && open != [] && open[0] !in lead
    ensures Absent(s, open, 0, |lead|)
  {
    forall k | 0 <= k < |lead|
      ensures !OccursAt(s, open, k)
    {
      assert s[k] == s[..|lead|][k];
      NoFirstCharNoOpen(s, k, open);
    }
    AbsentFromAll(s, open, 0, |lead|);
  }

  /** `close` does not start inside a copy of `cols + close` before its own `close`. */
  lemma ColsFree(s: string, off: nat, cols: string, close: string)
    requires off + |cols| + |close| <= |s| && s[off..off + |cols| + |close|] == cols + close
    requires forall k :: 0 <= k < |cols| ==> !OccursAt(cols + close, close, k)
    ensures Absent(s, close, off, off + |cols|)
  {
    forall k | off <= k < off + |cols|
      ensures !OccursAt(s, close, k)
    {
      OccursShift(s, cols + close, off, k - off, close);
    }
    AbsentFromAll(s, close, off, off + |cols|);
  }

  /** With the `s` flag, a text whose parts are `lead`, `open`, `cols`,
      `close` and `rest`, at the positions given, is rewritten to
      `lead + replacement + rest`. */
  lemma RewriteParts(s: string, at: nat, e: nat, lead: string, open: string, cols: string, close: string,
                     rest: string, replacement: string)
    requires at == |lead| && e == at + |open| + |cols| && e + |close| <= |s|
    requires s[..at] == lead && s[at..at + |open|] == open
    requires s[at + |open|..e + |close|] == cols + close && s[e..e + |close|] == close && s[e + |close|..] == rest
    requires open != [] && open[0] !in lead
    requires forall k :: 0 <= k < |cols| ==> !OccursAt(cols + close, close, k)
    ensures ReplaceFirst(s, open, close, true, replacement) == lead + replacement + rest
  {
    PrefixFree(s, lead, open);
    ColsFree(s, at + |open|, cols, close);
    LeftmostMatch(s, at, e, open, close);
    ReplaceMatch(s, open, close, true, replacement, at, e + |close|);
  }

  /** With the `s` flag, a text that opens with `open` after a `lead` free of
      its first character, and whose first later `close` ends the select list
      `cols`, is rewritten to `lead + replacement + rest`. */
  lemma RewriteFindsFirstClose(lead: string, open: string, cols: string, close: string, rest: string, replacement: string)
    requires open != [] && open[0] !in lead
    requires forall k :: 0 <= k < |cols| ==> !OccursAt(cols + close, close, k)
    ensures ReplaceFirst(lead + open + cols + close + rest, open, close, true, replacement) == lead + replacement + rest
  {
    var s := lead + open + cols + close + rest;
    var at, e := |lead|, |lead| + |open| + |cols|;
    assert s == lead + (open + (cols + close + rest));
    assert s[at..at + |open|] == open;
    assert s[at + |open|..e + |close|] == cols + close;
    assert s[e..e + |close|] == close;
    RewriteParts(s, at, e, lead, open, cols, close, rest, replacement);
  }

  /** `open` starts nowhere after the one at `at` when its first character
      does not recur in it, a line break follows it, and `rest` does not hold it. */
  lemma RestFree(s: string, at: nat, open: string, rest: string)
    requires open != [] && open[0] !in open[1..] && open[0] != '\n' && !Contains(rest, open)
    requires |s| == at + |open| + 1 + |rest| && s[at..at + |open|] == open
    requires s[at + |open|] == '\n' && s[at + |open| + 1..] == rest
    ensures Absent(s, open, at + 1, |s|)
  {
    var j := at + |open|;
    forall k | at < k < |s|
      ensures !OccursAt(s, open, k)
    {
      if k < j {
        assert s[k] == s[at..at + |open|][k - at] == open[1..][k - at - 1];
        NoFirstCharNoOpen(s, k, open);
      } else if k == j {
        NoFirstCharNoOpen(s, k, open);
      } else if k + |open| <= |s| {
        assert !OccursAt(rest, open, k - j - 1);
        OccursShift(s, rest, j + 1, k - j - 1, open);
      }
    }
    AbsentFromAll(s, open, at + 1, |s|);
  }

  /** Without the `s` flag, a text laid out as `lead`, `open`, a line break
      and `rest`, at the positions given, has no match. */
  lemma MissParts(s: string, lead: string, open: string, rest: string, close: string)
    requires open != [] && open[0] !in lead && open[0] !in open[1..] && open[0] != '\n' && !Contains(rest, open)
    requires close != [] && close[0] != '\n'
    requires |s| == |lead| + |open| + 1 + |rest| && s[..|lead|] == lead && s[|lead|..|lead| + |open|] == open
    requires s[|lead| + |open|] == '\n' && s[|lead| + |open| + 1..] == rest
    ensures FirstMatch(s, 0, open, close, false) == None
  {
    var at, j := |lead|, |lead| + |open|;
    PrefixFree(s, lead, open);
    RestFree(s, at, open, rest);
    NoFirstCharNoOpen(s, j, close);
    assert LazyTo(s, j, close, false) == None;
    assert FirstMatch(s, |s|, open, close, false) == None;
    NoOpenSkips(s, at + 1, |s|, open, close, false, None);
    assert FirstMatch(s, at, open, close, false) == None;
    NoOpenSkips(s, 0, at, open, close, false, None);
  }

  /** Without the `s` flag, a text whose `open` is followed by a line break,
      and in which `open` does not occur again, is left as it is: the lazy
      `.*?` cannot cross the line break. */
  lemma RewriteMissesLineBreak(lead: string, open: string, rest: string, close: string, replacement: string)
    requires open != [] && open[0] !in lead && open[0] !in open[1..] && open[0] != '\n' && !Contains(rest, open)
    requires close != [] && close[0] != '\n'
    ensures ReplaceFirst(lead + open + "\n" + rest, open, close, false, replacement) == lead + open + "\n" + rest
  {
    var s := lead + open + "\n" + rest;
    var at := |lead|;
    assert s == lead + (open + ("\n" + rest));
    assert s[at..at + |open|] == open;
    assert s[at + |open| + 1..] == rest;
    MissParts(s, lead, open, rest, close);
  }

  /** `%${search}%`, the ILIKE pattern matching any text that contains `search`. */
  function LikePattern(search: string): string {
    "%" + search + "%"
  }
}
