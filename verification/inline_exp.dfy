/** The inline-expression interpreter of output-definition templates,
    `Croo.__interpret_inline_exp` (croo/croo.py:130-175).

    A template such as "align/rep${i}/${basename}" is rewritten by repeatedly
    finding the leftmost `${expr}` placeholder and replacing the first copy of
    its text by `str(eval(expr))`. Evaluation is a lookup of `expr` among the
    seven names the function binds; any other expression is an error, as an
    undefined name is in the source. The source loop has no bound (a
    substituted value can bring its own placeholder back), so the model takes
    a `fuel` argument: the number of rewrites it may perform. */
module InlineExp {
  import opened Wrappers
  import opened Paths
  import opened PyText
  import opened Placeholder

  /** The Python values a name can be bound to. */
  datatype Value = IntV(n: int) | NoneV | StrV(s: string) | TupleV(items: seq<int>)

  /** Python's `str(v)`. */
  function Str(v: Value): (r: string)
    ensures v.NoneV? ==> r == "None"
    ensures '$' in r ==> v.StrV? // only a string value can bring a '$' in
  {
    match v
    case IntV(n) => IntToString(n)
    case NoneV => "None"
    case StrV(t) => t
    case TupleV(xs) => TupleToString(xs)
  }

  /** Why an interpretation stops without a result. */
  datatype InterpError =
    | ShardIndexError           // `shard_idx[0]` of an empty tuple
    | UnknownName(expr: string) // `eval` of anything but a bound name
    | OutOfFuel                 // more rewrites than the fuel allows

  /** The seven local names the interpreter documents (croo/croo.py:143-150),
      with their Python values. */
  datatype Scope = Scope(
    i: Value, j: Value, k: Value,
    basename: string, dirname: string, fullPath: string,
    shardIdx: seq<int>)

  /** The spellings of the seven names. */
  const Names: set<string> := {"i", "j", "k", "basename", "dirname", "full_path", "shard_idx"}

  /** The value a name spells. */
  function Lookup(scope: Scope, x: string): Value
    requires x in Names
  {
    if x == "i" then scope.i
    else if x == "j" then scope.j
    else if x == "k" then scope.k
    else if x == "basename" then StrV(scope.basename)
    else if x == "dirname" then StrV(scope.dirname)
    else if x == "full_path" then StrV(scope.fullPath)
    else TupleV(scope.shardIdx)
  }

  /** The names an expression may refer to, with the text `str()` gives their
      values: what a placeholder naming them is rewritten to. */
  type Env = map<string, string>

  /** The text of every bound name. */
  function Texts(scope: Scope): (env: Env)
    ensures env.Keys == Names
    ensures forall x :: x in Names ==> env[x] == Str(Lookup(scope, x))
  {
    map x | x in Names :: Str(Lookup(scope, x))
  }

  /** The scatter index at nesting `level` as a Python value: the integer, or
      `None` when the task was not scattered there (a negative entry) or the
      tuple is too short to have that level. */
  function IndexValue(shardIdx: seq<int>, level: nat): (v: Value)
    ensures v.IntV? <==> level < |shardIdx| && shardIdx[level] > -1
    ensures v.IntV? ==> v.n == shardIdx[level]
    ensures !v.IntV? ==> v == NoneV
  {
    if level < |shardIdx| && shardIdx[level] > -1 then IntV(shardIdx[level]) else NoneV
  }

  /** The bindings made before the rewriting loop (croo/croo.py:154-167).
      An empty `shard_idx` makes the source fail at `shard_idx[0]`. */
  function Bind(fullPath: string, shardIdx: seq<int>): (r: Result<Scope, InterpError>)
    ensures r.Failure? <==> |shardIdx| == 0
    ensures r.Failure? ==> r.error == ShardIndexError
    ensures r.Success? ==> r.value.i == IndexValue(shardIdx, 0)
    ensures r.Success? ==> r.value.j == IndexValue(shardIdx, 1)
    ensures r.Success? ==> r.value.k == IndexValue(shardIdx, 2)
    ensures r.Success? ==> r.value.basename == Basename(fullPath)
    ensures r.Success? ==> r.value.dirname == Dirname(fullPath)
    ensures r.Success? ==> r.value.fullPath == fullPath && r.value.shardIdx == shardIdx
  {
    if |shardIdx| == 0 then Failure(ShardIndexError)
    else Success(Scope(
      IndexValue(shardIdx, 0), IndexValue(shardIdx, 1), IndexValue(shardIdx, 2),
      Basename(fullPath), Dirname(fullPath), fullPath, shardIdx))
  }

  /** `str(eval(expr))` restricted to the lookup of a bound name. */
  function Eval(expr: string, env: Env): (r: Option<string>)
    ensures r.Some? <==> expr in env
    ensures r.Some? ==> r.value == env[expr]
  {
    if expr in env then Some(env[expr]) else None
  }

  /** The rewriting loop (croo/croo.py:169-173), at most `fuel` rewrites. */
  function Interpret(s: string, env: Env, fuel: nat): Result<string, InterpError>
    decreases fuel
  {
    match Search(s)
    case None => Success(s)
    case Some(m) =>
      if fuel == 0 then Failure(OutOfFuel)
      else
        match Eval(Expr(s, m), env)
        case None => Failure(UnknownName(Expr(s, m)))
        case Some(v) => Interpret(Splice(s, m, v), env, fuel - 1)
  }

  /** `Croo.__interpret_inline_exp(s, full_path, shard_idx)`. */
  function InterpretInlineExp(s: string, fullPath: string, shardIdx: seq<int>, fuel: nat)
    : (r: Result<string, InterpError>)
    ensures |shardIdx| == 0 ==> r == Failure(ShardIndexError)
  {
    match Bind(fullPath, shardIdx)
    case Failure(e) => Failure(e)
    case Success(scope) => Interpret(s, Texts(scope), fuel)
  }

  /** Once `shard_idx` has a first entry, the function is the loop run with the
      seven names bound. */
  lemma InlineExpBinds(s: string, fullPath: string, shardIdx: seq<int>, fuel: nat)
    requires |shardIdx| > 0
    ensures InterpretInlineExp(s, fullPath, shardIdx, fuel) == Interpret(s, Texts(Bind(fullPath, shardIdx).value), fuel)
  {
  }

  /** A template without placeholders comes back unchanged. */
  lemma InterpretUnchanged(s: string, env: Env, fuel: nat)
    requires Search(s).None?
    ensures Interpret(s, env, fuel) == Success(s)
  {
  }

  /** Whatever the loop returns holds no placeholder any more: the loop only
      stops with a result once `re.search` finds nothing. */
  lemma {:induction false} InterpretResolvesAll(s: string, env: Env, fuel: nat)
    ensures Interpret(s, env, fuel).Success? ==> Search(Interpret(s, env, fuel).value).None?
    decreases fuel
  {
    match Search(s)
    case None =>
    case Some(m) =>
      if fuel > 0 && Expr(s, m) in env {
        InterpretResolvesAll(Splice(s, m, env[Expr(s, m)]), env, fuel - 1);
      }
  }

  /** Fuel only ever cuts the loop short: a result reached within `fuel`
      rewrites, or an unknown name met within them, stays the outcome for
      any larger fuel. */
  lemma {:induction false} FuelMonotone(s: string, env: Env, fuel: nat, fuel': nat)
    requires fuel <= fuel' && Interpret(s, env, fuel) != Failure(OutOfFuel)
    ensures Interpret(s, env, fuel') == Interpret(s, env, fuel)
    decreases fuel
  {
    match Search(s)
    case None =>
    case Some(m) =>
      if Expr(s, m) in env {
        FuelMonotone(Splice(s, m, env[Expr(s, m)]), env, fuel - 1, fuel' - 1);
      }
  }

  /** The same two facts for the whole function, once the names are bound. */
  lemma InlineExpResolvesAll(s: string, fullPath: string, shardIdx: seq<int>, fuel: nat)
    ensures |shardIdx| > 0 && Search(s).None? ==> InterpretInlineExp(s, fullPath, shardIdx, fuel) == Success(s)
    ensures InterpretInlineExp(s, fullPath, shardIdx, fuel).Success? ==>
      Search(InterpretInlineExp(s, fullPath, shardIdx, fuel).value).None?
  {
    if |shardIdx| > 0 {
      var env := Texts(Bind(fullPath, shardIdx).value);
      if Search(s).None? {
        InterpretUnchanged(s, env, fuel);
      }
      InterpretResolvesAll(s, env, fuel);
    }
  }

  /** `s` with the placeholder `m` replaced by `v`. For the leftmost match this
      is what `s.replace(m.group(0), v, 1)` computes (`ReplaceFirstIsLeftmost`). */
  function Splice(s: string, m: Match, v: string): string
    requires m.start <= m.close < |s|
  {
    s[..m.start] + v + s[m.close + 1..]
  }

  /** One turn of the loop is the source's `str.replace(m.group(0), str(eval(expr)), 1)`:
      an unbound expression stops it, a bound one is spliced over the leftmost
      placeholder. */
  lemma InterpretStep(s: string, env: Env, fuel: nat, m: Match)
    requires Search(s) == Some(m) && fuel > 0
    ensures Expr(s, m) !in env ==> Interpret(s, env, fuel) == Failure(UnknownName(Expr(s, m)))
    ensures Expr(s, m) in env ==>
      Interpret(s, env, fuel) == Interpret(ReplaceFirst(s, Whole(s, m), env[Expr(s, m)]), env, fuel - 1)
  {
    if Expr(s, m) in env {
      var v := env[Expr(s, m)];
      assert ReplaceFirst(s, Whole(s, m), v) == Splice(s, m, v) by {
        ReplaceFirstIsLeftmost(s, m, v);
      }
      StepSplices(s, env, fuel, m);
    }
  }

  /** No bound value renders with a '$'. */
  predicate Inert(env: Env) {
    forall x :: x in env ==> '$' !in env[x]
  }

  /** A file location without a '$' gives bindings that bring none in. */
  lemma BindInert(fullPath: string, shardIdx: seq<int>)
    requires '$' !in fullPath && |shardIdx| > 0
    ensures Inert(Texts(Bind(fullPath, shardIdx).value))
  {
    PathPartsInert(fullPath);
    var scope := Bind(fullPath, shardIdx).value;
    forall x | x in Names ensures '$' !in Str(Lookup(scope, x)) {
      ValueInert(Lookup(scope, x));
    }
  }

  lemma PathPartsInert(fullPath: string)
    requires '$' !in fullPath
    ensures '$' !in Basename(fullPath) && '$' !in Dirname(fullPath)
  {
    var b := Basename(fullPath);
    var d := Dirname(fullPath);
    forall c | c in b ensures c in fullPath {
      var t :| 0 <= t < |b| && b[t] == c;
      assert fullPath[|fullPath| - |b| + t] == c;
    }
    forall c | c in d ensures c in fullPath {
      var t :| 0 <= t < |d| && d[t] == c;
      assert fullPath[t] == c;
    }
  }

  /** Only a string value can bring a '$' in. */
  lemma ValueInert(v: Value)
    requires v.StrV? ==> '$' !in v.s
    ensures '$' !in Str(v)
  {
    if v.IntV? {
      assert '$' !in IntToString(v.n);
    }
  }

  /** A template as literal text and placeholders. */
  datatype Piece = Lit(text: string) | Hole(name: string)

  /** The template text of a sequence of pieces. */
  function Render(ps: seq<Piece>): string
  {
    if ps == [] then ""
    else
      (match ps[0]
       case Lit(t) => t
       case Hole(x) => "${" + x + "}") + Render(ps[1..])
  }

  /** Literal text without a '$', and placeholders that name a bound value
      and read as one placeholder (no '}' or line break inside). */
  predicate WellFormed(ps: seq<Piece>, env: Env) {
    ps == [] || (PieceWellFormed(ps[0], env) && WellFormed(ps[1..], env))
  }

  predicate PieceWellFormed(p: Piece, env: Env) {
    match p
    case Lit(t) => '$' !in t
    case Hole(x) => x in env && '}' !in x && '\n' !in x
  }

  function Holes(ps: seq<Piece>): nat
  {
    if ps == [] then 0 else (if ps[0].Hole? then 1 else 0) + Holes(ps[1..])
  }

  /** What one piece contributes to the one-pass fill. */
  function PieceFill(p: Piece, env: Env): string
  {
    match p
    case Lit(t) => t
    case Hole(x) => if x in env then env[x] else ""
  }

  /** Reference semantics: every placeholder replaced by its value, left to
      right, in one pass (an unbound name stands for nothing here; the
      theorems below only use bound ones). */
  function Fill(ps: seq<Piece>, env: Env): string
  {
    if ps == [] then "" else PieceFill(ps[0], env) + Fill(ps[1..], env)
  }

  /** After a '$'-free resolved prefix, a placeholder `${x}` is the leftmost
      match, its expression is `x`, and rewriting it appends its value to the
      prefix. */
  lemma HoleAfterPrefix(done: string, x: string, rest: string, v: string)
    requires '$' !in done && '}' !in x && '\n' !in x
    ensures Search(done + ("${" + x + "}" + rest)) == Some(Match(|done|, |done| + |x| + 2))
    ensures Expr(done + ("${" + x + "}" + rest), Match(|done|, |done| + |x| + 2)) == x
    ensures Splice(done + ("${" + x + "}" + rest), Match(|done|, |done| + |x| + 2), v) == (done + v) + rest
  {
    var h := "${" + x + "}" + rest;
    var s := done + h;
    PlaceholderAtFront(x, rest);
    SearchShift(done, h);
    assert s[|done| + 2..|done| + |x| + 2] == h[2..|x| + 2] == x;
    assert s[..|done|] == done;
    assert s[|done| + |x| + 3..] == h[|x| + 3..] == rest;
  }

  /** The loop, given `fuel` rewrites, turns `s` into `out`. */
  predicate Yields(s: string, env: Env, fuel: nat, out: string) {
    Interpret(s, env, fuel) == Success(out)
  }

  /** The loop's first rewrite turns `s` into `s'`. */
  predicate Rewrites(s: string, env: Env, fuel: nat, s': string) {
    fuel > 0 && Interpret(s, env, fuel) == Interpret(s', env, fuel - 1)
  }

  /** `Fill` written with the resolved prefix carried along. */
  function FillAfter(done: string, ps: seq<Piece>, env: Env): string
    decreases |ps|
  {
    if ps == [] then done else FillAfter(done + PieceFill(ps[0], env), ps[1..], env)
  }

  lemma {:induction false} FillAfterIsFill(done: string, ps: seq<Piece>, env: Env)
    ensures FillAfter(done, ps, env) == done + Fill(ps, env)
    decreases |ps|
  {
    if ps != [] {
      var v := PieceFill(ps[0], env);
      FillAfterIsFill(done + v, ps[1..], env);
      assert Fill(ps, env) == v + Fill(ps[1..], env);
      assert (done + v) + Fill(ps[1..], env) == done + (v + Fill(ps[1..], env));
    }
  }

  /** The rewriting loop agrees with the one-pass reference: each placeholder
      is resolved independently and in left-to-right order, provided neither
      the literal text nor any bound value contains a '$'. `done` is the text
      already resolved. */
  lemma {:induction false} FillFromPrefix(done: string, ps: seq<Piece>, env: Env, fuel: nat)
    requires '$' !in done && WellFormed(ps, env) && Inert(env) && Holes(ps) <= fuel
    ensures Yields(done + Render(ps), env, fuel, FillAfter(done, ps, env))
    decreases |ps|, 1
  {
    if ps == [] {
      assert done + Render(ps) == done;
      NoDollarNoMatch(done);
      InterpretUnchanged(done, env, fuel);
    } else if ps[0].Lit? {
      FillLit(done, ps, env, fuel);
    } else {
      FillHole(done, ps, env, fuel);
    }
  }

  /** A leading literal joins the resolved prefix. */
  lemma {:induction false} FillLit(done: string, ps: seq<Piece>, env: Env, fuel: nat)
    requires '$' !in done && WellFormed(ps, env) && Inert(env) && Holes(ps) <= fuel
    requires ps != [] && ps[0].Lit?
    ensures Yields(done + Render(ps), env, fuel, FillAfter(done, ps, env))
    decreases |ps|, 0
  {
    LitShift(done, ps, env);
    FillFromPrefix(done + ps[0].text, ps[1..], env, fuel);
  }

  /** The text of a leading literal moves into the prefix. */
  lemma LitShift(done: string, ps: seq<Piece>, env: Env)
    requires '$' !in done && WellFormed(ps, env)
    requires ps != [] && ps[0].Lit?
    ensures '$' !in done + ps[0].text && WellFormed(ps[1..], env) && Holes(ps[1..]) == Holes(ps)
    ensures done + Render(ps) == (done + ps[0].text) + Render(ps[1..])
  {
    var t := ps[0].text;
    assert Render(ps) == t + Render(ps[1..]);
    assert done + (t + Render(ps[1..])) == (done + t) + Render(ps[1..]);
  }

  /** A leading placeholder is rewritten first and its value joins the resolved prefix. */
  lemma {:induction false} FillHole(done: string, ps: seq<Piece>, env: Env, fuel: nat)
    requires '$' !in done && WellFormed(ps, env) && Inert(env) && Holes(ps) <= fuel
    requires ps != [] && ps[0].Hole?
    ensures Yields(done + Render(ps), env, fuel, FillAfter(done, ps, env))
    decreases |ps|, 0
  {
    var done' := HoleAdvance(done, ps, env, fuel);
    FillFromPrefix(done', ps[1..], env, fuel - 1);
  }

  /** Rewriting a leading placeholder leaves a resolved prefix `done'` and the
      remaining pieces, with one rewrite spent. */
  lemma HoleAdvance(done: string, ps: seq<Piece>, env: Env, fuel: nat) returns (done': string)
    requires '$' !in done && WellFormed(ps, env) && Inert(env) && Holes(ps) <= fuel
    requires ps != [] && ps[0].Hole?
    ensures fuel > 0 && '$' !in done' && WellFormed(ps[1..], env) && Holes(ps[1..]) <= fuel - 1
    ensures Rewrites(done + Render(ps), env, fuel, done' + Render(ps[1..]))
    ensures FillAfter(done, ps, env) == FillAfter(done', ps[1..], env)
  {
    HoleFills(done, ps, env);
    HoleRewrite(done, ps, env, fuel);
    done' := done + env[ps[0].name];
  }

  /** What is left after a leading placeholder, and what it fills in. */
  lemma HoleFills(done: string, ps: seq<Piece>, env: Env)
    requires '$' !in done && WellFormed(ps, env) && Inert(env)
    requires ps != [] && ps[0].Hole?
    ensures ps[0].name in env && '$' !in done + env[ps[0].name]
    ensures WellFormed(ps[1..], env) && Holes(ps[1..]) + 1 == Holes(ps)
    ensures FillAfter(done, ps, env) == FillAfter(done + env[ps[0].name], ps[1..], env)
  {
  }

  /** The rewrite of a leading placeholder, in terms of the pieces. */
  lemma HoleRewrite(done: string, ps: seq<Piece>, env: Env, fuel: nat)
    requires '$' !in done && WellFormed(ps, env) && fuel > 0
    requires ps != [] && ps[0].Hole?
    ensures ps[0].name in env
    ensures Interpret(done + Render(ps), env, fuel) ==
      Interpret((done + env[ps[0].name]) + Render(ps[1..]), env, fuel - 1)
  {
    var x := ps[0].name;
    assert ps[0] == ps[0 + 0];
    assert done + Render(ps) == done + ("${" + x + "}" + Render(ps[1..]));
    HoleStep(done + Render(ps), done, x, Render(ps[1..]), env, fuel);
  }

  /** Rewriting a placeholder that follows a resolved prefix. */
  lemma HoleStep(s: string, done: string, x: string, rest: string, env: Env, fuel: nat)
    requires s == done + ("${" + x + "}" + rest)
    requires '$' !in done && '}' !in x && '\n' !in x && x in env && fuel > 0
    ensures Interpret(s, env, fuel) == Interpret((done + env[x]) + rest, env, fuel - 1)
  {
    HoleAfterPrefix(done, x, rest, env[x]);
    StepSplices(s, env, fuel, Match(|done|, |done| + |x| + 2));
  }

  /** The step of `InterpretStep` in terms of `Splice`. */
  lemma StepSplices(s: string, env: Env, fuel: nat, m: Match)
    requires Search(s) == Some(m) && fuel > 0 && Expr(s, m) in env
    ensures Interpret(s, env, fuel) == Interpret(Splice(s, m, env[Expr(s, m)]), env, fuel - 1)
  {
  }

  /** A template built from well-formed pieces resolves to their one-pass fill. */
  lemma InterpretIsFill(ps: seq<Piece>, env: Env, fuel: nat)
    requires WellFormed(ps, env) && Inert(env) && Holes(ps) <= fuel
    ensures Interpret(Render(ps), env, fuel) == Success(Fill(ps, env))
  {
    FillFromPrefix("", ps, env, fuel);
    FillAfterIsFill("", ps, env);
    assert "" + Render(ps) == Render(ps);
    assert "" + Fill(ps, env) == Fill(ps, env);
  }

  /** Splicing a '$'-free value over a span that starts with '$' removes at
      least one '$'. */
  lemma SpliceCount(s: string, m: Match, v: string)
    requires m.start <= m.close < |s| && s[m.start] == '$' && '$' !in v
    ensures Count('$', Splice(s, m, v)) < Count('$', s)
  {
    var p, q := m.start, m.close;
    var mid := s[p..q + 1];
    SplitAround(s, p, q);
    CountThree(s[..p], mid, s[q + 1..]);
    CountThree(s[..p], v, s[q + 1..]);
    assert mid[0] == '$';
    HasDollar(mid);
    CountAbsent('$', v);
  }

  lemma SplitAround(s: string, p: nat, q: nat)
    requires p <= q < |s|
    ensures s == s[..p] + s[p..q + 1] + s[q + 1..]
  {
  }

  lemma CountThree(a: string, b: string, c: string)
    ensures Count('$', a + b + c) == Count('$', a) + Count('$', b) + Count('$', c)
  {
    CountAppend('$', a, b);
    CountAppend('$', a + b, c);
  }

  lemma HasDollar(t: string)
    requires t != [] && t[0] == '$'
    ensures Count('$', t) > 0
  {
    assert t[0] in t;
    CountAbsent('$', t);
  }

  /** With '$'-free bindings the loop never needs more rewrites than the
      template has '$' characters: each rewrite removes one and adds none. */
  lemma {:induction false} InterpretTerminates(s: string, env: Env, fuel: nat)
    requires Inert(env) && Count('$', s) <= fuel
    ensures Interpret(s, env, fuel) != Failure(OutOfFuel)
    decreases fuel, 1
  {
    match Search(s)
    case None =>
    case Some(m) =>
      MatchHasDollar(s, m);
      if Expr(s, m) in env {
        TerminatesAfterStep(s, env, fuel, m);
      } else {
        InterpretStep(s, env, fuel, m);
      }
  }

  lemma MatchHasDollar(s: string, m: Match)
    requires IsMatch(s, m.start, m.close)
    ensures Count('$', s) > 0
  {
    assert s[m.start] in s;
    CountAbsent('$', s);
  }

  lemma {:induction false} TerminatesAfterStep(s: string, env: Env, fuel: nat, m: Match)
    requires Inert(env) && Count('$', s) <= fuel
    requires Search(s) == Some(m) && fuel > 0 && Expr(s, m) in env
    ensures Interpret(s, env, fuel) != Failure(OutOfFuel)
    decreases fuel, 0
  {
    var v := env[Expr(s, m)];
    StepSplices(s, env, fuel, m);
    SpliceCount(s, m, v);
    InterpretTerminates(Splice(s, m, v), env, fuel - 1);
  }

  /** A template whose rewrite reproduces itself never resolves: the loop
      spins until the fuel runs out. */
  lemma {:induction false} FixpointNeverResolves(s: string, env: Env, fuel: nat, m: Match)
    requires Search(s) == Some(m) && Expr(s, m) in env
    requires Splice(s, m, env[Expr(s, m)]) == s
    ensures Interpret(s, env, fuel) == Failure(OutOfFuel)
    decreases fuel
  {
    if fuel > 0 {
      StepSplices(s, env, fuel, m);
      FixpointNeverResolves(s, env, fuel - 1, m);
    }
  }

  /** The template "${basename}" is one placeholder naming `basename`, and
      splicing its own text over it gives it back. */
  lemma BasenameTemplate(s: string)
    requires s == "${basename}"
    ensures Search(s) == Some(Match(0, 10)) && Expr(s, Match(0, 10)) == "basename"
    ensures Splice(s, Match(0, 10), s) == s
  {
    assert "" + ("${" + "basename" + "}" + "") == s;
    assert ("" + s) + "" == s;
    assert Search(s) == Some(Match(0, 10)) by {
      HoleAfterPrefix("", "basename", "", s);
    }
    assert Expr(s, Match(0, 10)) == "basename" by {
      HoleAfterPrefix("", "basename", "", s);
    }
    assert Splice(s, Match(0, 10), s) == s by {
      HoleAfterPrefix("", "basename", "", s);
    }
  }

  /** The source loop need not terminate: a file whose base name is itself
      "${basename}" rewrites the template "${basename}" to itself forever. */
  lemma SelfReferentialBasenameNeverResolves(dir: string, shardIdx: seq<int>, fuel: nat)
    requires |shardIdx| > 0
    ensures InterpretInlineExp("${basename}", dir + "/" + "${basename}", shardIdx, fuel) == Failure(OutOfFuel)
  {
    var s := "${basename}";
    BasenameOfSplit(dir, s);
    BasenameTemplate(s);
    FixpointNeverResolves(s, Texts(Bind(dir + "/" + s, shardIdx).value), fuel, Match(0, 10));
  }

  function IndexName(level: nat): string
    requires level < 3
  {
    ["i", "j", "k"][level]
  }

  /** A template that is one placeholder naming a bound, '$'-free value
      resolves to that value in one rewrite. */
  lemma SinglePlaceholder(x: string, env: Env, fuel: nat)
    requires x in env && '}' !in x && '\n' !in x && '$' !in env[x] && fuel > 0
    ensures Interpret("${" + x + "}", env, fuel) == Success(env[x])
  {
    assert "" + ("${" + x + "}" + "") == "${" + x + "}";
    assert ("" + env[x]) + "" == env[x];
    HoleStep("${" + x + "}", "", x, "", env, fuel);
    NoDollarNoMatch(env[x]);
    InterpretUnchanged(env[x], env, fuel - 1);
  }

  /** A placeholder after '$'-free text resolves in one rewrite to that
      text followed by the placeholder's '$'-free value. */
  lemma PlaceholderAfterPrefix(done: string, x: string, env: Env, fuel: nat)
    requires '$' !in done && x in env && '}' !in x && '\n' !in x && '$' !in env[x] && fuel > 0
    ensures Interpret(done + "${" + x + "}", env, fuel) == Success(done + env[x])
  {
    assert done + "${" + x + "}" == done + ("${" + x + "}" + "");
    assert (done + env[x]) + "" == done + env[x];
    HoleStep(done + "${" + x + "}", done, x, "", env, fuel);
    NoDollarNoMatch(done + env[x]);
    InterpretUnchanged(done + env[x], env, fuel - 1);
  }

  /** `basename` is bound to the file's base name. */
  lemma BasenameBinding(fullPath: string, shardIdx: seq<int>)
    requires |shardIdx| > 0
    ensures "basename" in Texts(Bind(fullPath, shardIdx).value)
    ensures Texts(Bind(fullPath, shardIdx).value)["basename"] == Basename(fullPath)
  {
    var scope := Bind(fullPath, shardIdx).value;
    LookupBasename(scope);
    BoundText(scope, "basename");
  }

  /** The text a bound name is given. */
  lemma BoundText(scope: Scope, x: string)
    requires x in Names
    ensures x in Texts(scope) && Texts(scope)[x] == Str(Lookup(scope, x))
  {
  }

  lemma BasenameIsPlain()
    ensures '}' !in "basename" && '\n' !in "basename"
  {
    assert "basename" == ['b', 'a', 's', 'e', 'n', 'a', 'm', 'e'];
  }

  lemma LookupBasename(scope: Scope)
    ensures "basename" in Names && Lookup(scope, "basename") == StrV(scope.basename)
  {
    assert |"basename"| == 8;
  }

  /** A template of '$'-free text followed by one placeholder naming a bound
      name renders as that text followed by the name's text, when the file
      location has no '$'. */
  lemma PrefixedPlaceholderRendering(dir: string, x: string, fullPath: string, shardIdx: seq<int>, fuel: nat)
    requires |shardIdx| > 0 && '$' !in dir && '$' !in fullPath && fuel > 0
    requires x in Texts(Bind(fullPath, shardIdx).value) && '}' !in x && '\n' !in x
    ensures InterpretInlineExp(dir + "${" + x + "}", fullPath, shardIdx, fuel) ==
      Success(dir + Texts(Bind(fullPath, shardIdx).value)[x])
  {
    var env := Texts(Bind(fullPath, shardIdx).value);
    InlineExpBinds(dir + "${" + x + "}", fullPath, shardIdx, fuel);
    BindInert(fullPath, shardIdx);
    PlaceholderAfterPrefix(dir, x, env, fuel);
  }

  /** A template "<dir>${basename}" with a '$'-free `dir` renders as `dir`
      followed by the file's base name. */
  lemma BasenameTemplateRendering(dir: string, fullPath: string, shardIdx: seq<int>, fuel: nat)
    requires |shardIdx| > 0 && '$' !in dir && '$' !in fullPath && fuel > 0
    ensures InterpretInlineExp(dir + "${" + "basename" + "}", fullPath, shardIdx, fuel) == Success(dir + Basename(fullPath))
  {
    BasenameBinding(fullPath, shardIdx);
    BasenameIsPlain();
    PrefixedPlaceholderRendering(dir, "basename", fullPath, shardIdx, fuel);
  }

  lemma IndexNameIsPlain(level: nat)
    requires level < 3
    ensures '}' !in IndexName(level) && '\n' !in IndexName(level)
  {
    if level == 0 {
      assert IndexName(level) == "i";
    } else if level == 1 {
      assert IndexName(level) == "j";
    } else {
      assert IndexName(level) == "k";
    }
  }

  /** The text bound to `i`, `j` or `k`: the decimal scatter index of that
      nesting level, or "None". */
  lemma IndexText(fullPath: string, shardIdx: seq<int>, level: nat)
    requires |shardIdx| > 0 && level < 3
    ensures IndexName(level) in Texts(Bind(fullPath, shardIdx).value)
    ensures Texts(Bind(fullPath, shardIdx).value)[IndexName(level)] ==
      if level < |shardIdx| && shardIdx[level] > -1 then NatToString(shardIdx[level]) else "None"
    ensures '$' !in Texts(Bind(fullPath, shardIdx).value)[IndexName(level)]
  {
    var scope := Bind(fullPath, shardIdx).value;
    LookupIndex(scope, level);
    BoundText(scope, IndexName(level));
    IndexTextOf(IndexValue(shardIdx, level), shardIdx, level);
  }

  /** `i`, `j` and `k` look up the scope's index fields. */
  lemma LookupIndex(scope: Scope, level: nat)
    requires level < 3
    ensures IndexName(level) in Names
    ensures Lookup(scope, IndexName(level)) == if level == 0 then scope.i else if level == 1 then scope.j else scope.k
  {
    if level == 0 {
      assert IndexName(level) == "i";
    } else if level == 1 {
      assert IndexName(level) == "j";
    } else {
      assert IndexName(level) == "k";
    }
  }

  lemma IndexTextOf(v: Value, shardIdx: seq<int>, level: nat)
    requires v == IndexValue(shardIdx, level)
    ensures Str(v) == if level < |shardIdx| && shardIdx[level] > -1 then NatToString(shardIdx[level]) else "None"
    ensures '$' !in Str(v)
  {
    ValueInert(v);
  }

  /** `${i}`, `${j}` and `${k}` render the scatter index of their nesting
      level when it is not negative, and the text "None" otherwise, including
      when the tuple is too short to have that level. */
  lemma IndexPlaceholderRendering(fullPath: string, shardIdx: seq<int>, level: nat, fuel: nat)
    requires |shardIdx| > 0 && level < 3 && fuel > 0
    ensures InterpretInlineExp("${" + IndexName(level) + "}", fullPath, shardIdx, fuel) ==
      Success(if level < |shardIdx| && shardIdx[level] > -1 then NatToString(shardIdx[level]) else "None")
  {
    var x := IndexName(level);
    var env := Texts(Bind(fullPath, shardIdx).value);
    InlineExpBinds("${" + x + "}", fullPath, shardIdx, fuel);
    IndexNameIsPlain(level);
    IndexText(fullPath, shardIdx, level);
    SinglePlaceholder(x, env, fuel);
  }
}
