/** `resolve_target_path`, the function the three migration engines share: it maps a
    breadcrumb of folder names onto the configured level names, rewrites level values
    with the configured regular expressions, renders the path template and strips the
    characters Windows forbids in file names. */
module PathResolver {
  import opened Wrappers
  import Seqs
  import Text

  /** A Python `dict` from names to strings, in insertion order. */
  type Context = seq<(string, string)>

  function Keys(ctx: Context): (ks: seq<string>)
    ensures |ks| == |ctx|
    ensures forall i :: 0 <= i < |ctx| ==> ks[i] == ctx[i].0
  {
    if |ctx| == 0 then [] else [ctx[0].0] + Keys(ctx[1..])
  }

  ghost predicate DistinctKeys(ctx: Context) {
    forall i, j :: 0 <= i < j < |ctx| ==> ctx[i].0 != ctx[j].0
  }

  /** `ctx.get(k)`. */
  function Lookup(ctx: Context, k: string): (r: Option<string>)
    ensures r.None? <==> k !in Keys(ctx)
  {
    if |ctx| == 0 then None
    else if ctx[0].0 == k then Some(ctx[0].1)
    else Lookup(ctx[1..], k)
  }

  /** `ctx[k] = v`: an existing key keeps its position and takes the new value,
      a new key is added at the end. */
  function Assign(ctx: Context, k: string, v: string): (r: Context)
    requires DistinctKeys(ctx)
    ensures DistinctKeys(r)
    ensures Lookup(r, k) == Some(v)
    ensures forall j :: j != k ==> Lookup(r, j) == Lookup(ctx, j)
    ensures Keys(r) == if k in Keys(ctx) then Keys(ctx) else Keys(ctx) + [k]
    decreases |ctx|
  {
    if |ctx| == 0 then [(k, v)]
    else
      DistinctCons(ctx[0], ctx[1..]);
      assert ctx == [ctx[0]] + ctx[1..];
      if ctx[0].0 == k then
        AssignFront(ctx[0], ctx[1..], v);
        [(k, v)] + ctx[1..]
      else
        var rest := Assign(ctx[1..], k, v);
        AssignBehind(ctx[0], ctx[1..], rest, k, v);
        [ctx[0]] + rest
  }

  /** Assigning the first key replaces its value in place. */
  lemma AssignFront(e: (string, string), tail: Context, v: string)
    requires DistinctKeys([e] + tail)
    ensures DistinctKeys([(e.0, v)] + tail)
    ensures Lookup([(e.0, v)] + tail, e.0) == Some(v)
    ensures forall j :: j != e.0 ==> Lookup([(e.0, v)] + tail, j) == Lookup([e] + tail, j)
    ensures e.0 in Keys([e] + tail) && Keys([(e.0, v)] + tail) == Keys([e] + tail)
  {
    DistinctCons(e, tail);
    DistinctCons((e.0, v), tail);
    KeysCons(e, tail);
    KeysCons((e.0, v), tail);
    LookupCons(e, tail);
    LookupCons((e.0, v), tail);
  }

  /** Assigning a key behind the first one keeps the first entry in front. */
  lemma AssignBehind(e: (string, string), tail: Context, rest: Context, k: string, v: string)
    requires DistinctKeys([e] + tail) && e.0 != k
    requires DistinctKeys(rest) && Lookup(rest, k) == Some(v)
    requires forall j :: j != k ==> Lookup(rest, j) == Lookup(tail, j)
    requires Keys(rest) == if k in Keys(tail) then Keys(tail) else Keys(tail) + [k]
    ensures DistinctKeys([e] + rest)
    ensures Lookup([e] + rest, k) == Some(v)
    ensures forall j :: j != k ==> Lookup([e] + rest, j) == Lookup([e] + tail, j)
    ensures Keys([e] + rest) == if k in Keys([e] + tail) then Keys([e] + tail) else Keys([e] + tail) + [k]
  {
    KeysBehind(e, tail, rest, k);
    LookupCons(e, rest);
    LookupCons(e, tail);
  }

  /** The keys part of the above: the first key stays first and distinct. */
  lemma KeysBehind(e: (string, string), tail: Context, rest: Context, k: string)
    requires DistinctKeys([e] + tail) && e.0 != k && DistinctKeys(rest)
    requires Keys(rest) == if k in Keys(tail) then Keys(tail) else Keys(tail) + [k]
    ensures DistinctKeys([e] + rest)
    ensures Keys([e] + rest) == if k in Keys([e] + tail) then Keys([e] + tail) else Keys([e] + tail) + [k]
  {
    KeysCons(e, tail);
    KeysCons(e, rest);
    DistinctCons(e, tail);
    DistinctCons(e, rest);
    if k !in Keys(tail) {
      Seqs.AppendAssoc([e.0], Keys(tail), [k]);
    }
  }

  lemma LookupCons(e: (string, string), rest: Context)
    ensures forall j :: Lookup([e] + rest, j) == if e.0 == j then Some(e.1) else Lookup(rest, j)
  {
    assert ([e] + rest)[1..] == rest;
  }

  lemma KeysCons(e: (string, string), rest: Context)
    ensures Keys([e] + rest) == [e.0] + Keys(rest)
  {
    assert ([e] + rest)[1..] == rest;
  }

  lemma DistinctCons(e: (string, string), rest: Context)
    ensures DistinctKeys([e] + rest) <==> DistinctKeys(rest) && e.0 !in Keys(rest)
  {
    if DistinctKeys([e] + rest) {
      DistinctTail(e, rest);
    }
    if DistinctKeys(rest) && e.0 !in Keys(rest) {
      DistinctFront(e, rest);
    }
  }

  lemma DistinctTail(e: (string, string), rest: Context)
    requires DistinctKeys([e] + rest)
    ensures DistinctKeys(rest) && e.0 !in Keys(rest)
  {
    var c := [e] + rest;
    forall i, j | 0 <= i < j < |rest| ensures rest[i].0 != rest[j].0 {
      assert c[i + 1] == rest[i] && c[j + 1] == rest[j];
    }
    forall i | 0 <= i < |rest| ensures Keys(rest)[i] != e.0 {
      assert c[i + 1] == rest[i];
      assert c[0].0 != c[i + 1].0;
    }
  }

  lemma DistinctFront(e: (string, string), rest: Context)
    requires DistinctKeys(rest) && e.0 !in Keys(rest)
    ensures DistinctKeys([e] + rest)
  {
    var c := [e] + rest;
    forall i, j | 0 <= i < j < |c| ensures c[i].0 != c[j].0 {
      if i == 0 {
        assert Keys(rest)[j - 1] == c[j].0;
      } else {
        assert c[i] == rest[i - 1] && c[j] == rest[j - 1];
      }
    }
  }

  /** The value of level `i`: the breadcrumb entry at `i`, or "Unknown" past its end. */
  function LevelValue(hierarchy: seq<string>, i: nat): string {
    if i < |hierarchy| then hierarchy[i] else "Unknown"
  }

  /** The value Python's loop leaves under `k` after binding the first `n` level names:
      the last assignment wins. */
  function BoundValue(levels: seq<string>, hierarchy: seq<string>, n: nat, k: string): Option<string>
    requires n <= |levels|
  {
    if n == 0 then None
    else if levels[n - 1] == k then Some(LevelValue(hierarchy, n - 1))
    else BoundValue(levels, hierarchy, n - 1, k)
  }

  /** The context after the first `n` configured level names have been bound. */
  function BindLevels(levels: seq<string>, hierarchy: seq<string>, n: nat): (ctx: Context)
    requires n <= |levels|
    ensures DistinctKeys(ctx)
    ensures forall k :: k in Keys(ctx) <==> k in levels[..n]
    ensures forall k :: Lookup(ctx, k) == BoundValue(levels, hierarchy, n, k)
  {
    if n == 0 then []
    else
      assert levels[..n] == levels[..n - 1] + [levels[n - 1]];
      Assign(BindLevels(levels, hierarchy, n - 1), levels[n - 1], LevelValue(hierarchy, n - 1))
  }

  /** A level name that is not repeated later is bound to its own breadcrumb entry,
      or to "Unknown" when the breadcrumb is shorter. */
  lemma {:induction false} BoundValueAtLastOccurrence(levels: seq<string>, hierarchy: seq<string>, n: nat, i: nat)
    requires i < n <= |levels|
    requires forall j :: i < j < n ==> levels[j] != levels[i]
    ensures BoundValue(levels, hierarchy, n, levels[i]) == Some(LevelValue(hierarchy, i))
  {
    if i < n - 1 {
      BoundValueAtLastOccurrence(levels, hierarchy, n - 1, i);
    }
  }

  /** No breadcrumb entry past the configured level names is ever bound. */
  lemma {:induction false} BoundValueFromConfiguredLevels(levels: seq<string>, hierarchy: seq<string>, n: nat, k: string)
    requires n <= |levels|
    ensures BoundValue(levels, hierarchy, n, k).Some? ==>
              exists i :: 0 <= i < n && levels[i] == k && BoundValue(levels, hierarchy, n, k) == Some(LevelValue(hierarchy, i))
  {
    if n > 0 && levels[n - 1] != k {
      BoundValueFromConfiguredLevels(levels, hierarchy, n - 1, k);
    }
  }

  /** The context of lines 39-53 of full_migration_engine.py: every configured level
      name bound, then "FileName" bound to the file name. */
  function BuildContext(levels: seq<string>, hierarchy: seq<string>, filename: string): (ctx: Context)
    ensures DistinctKeys(ctx)
    ensures Lookup(ctx, "FileName") == Some(filename)
    ensures forall k :: k in Keys(ctx) <==> k in levels || k == "FileName"
    ensures forall k :: k != "FileName" ==> Lookup(ctx, k) == BoundValue(levels, hierarchy, |levels|, k)
  {
    assert levels[..|levels|] == levels;
    Assign(BindLevels(levels, hierarchy, |levels|), "FileName", filename)
  }

  /** A rewrite rule of the configuration: `re.sub(pattern, replacement, value)`. */
  datatype Rule = Rule(pattern: string, replacement: string)

  /** The regular-expression engine, left abstract: `Some(result)` of `re.sub`, or `None`
      when it raises. */
  type RegexSub = (Rule, string) -> Option<string>

  /** One iteration of the rewrite loop: a field present in the context is replaced by
      the stripped rewrite result; a failing rewrite leaves the context as it was. */
  function ApplyRewrite(ctx: Context, field: string, rule: Rule, sub: RegexSub): (r: Context)
    requires DistinctKeys(ctx)
    ensures DistinctKeys(r)
    ensures Keys(r) == Keys(ctx)
    ensures forall j :: j != field ==> Lookup(r, j) == Lookup(ctx, j)
    ensures Lookup(r, field) ==
              match Lookup(ctx, field)
              case None => None
              case Some(v) => if sub(rule, v).Some? then Some(Text.Strip(sub(rule, v).value)) else Some(v)
  {
    match Lookup(ctx, field)
    case None => ctx
    case Some(v) =>
      match sub(rule, v)
      case None => ctx
      case Some(n) => Assign(ctx, field, Text.Strip(n))
  }

  /** The whole rewrite loop, in the configuration's order. */
  function ApplyRewrites(ctx: Context, rewrites: seq<(string, Rule)>, sub: RegexSub): (r: Context)
    requires DistinctKeys(ctx)
    ensures DistinctKeys(r)
    ensures Keys(r) == Keys(ctx)
    ensures forall j :: (forall m :: 0 <= m < |rewrites| ==> rewrites[m].0 != j) ==> Lookup(r, j) == Lookup(ctx, j)
    decreases |rewrites|
  {
    if |rewrites| == 0 then ctx
    else ApplyRewrites(ApplyRewrite(ctx, rewrites[0].0, rewrites[0].1, sub), rewrites[1..], sub)
  }

  /** A rewrite that raises never aborts resolution: when every rewrite fails the
      context comes through unchanged. */
  lemma {:induction false} FailingRewritesKeepContext(ctx: Context, rewrites: seq<(string, Rule)>, sub: RegexSub)
    requires DistinctKeys(ctx)
    requires forall m :: 0 <= m < |rewrites| ==> forall v :: sub(rewrites[m].1, v).None?
    ensures ApplyRewrites(ctx, rewrites, sub) == ctx
  {
    if |rewrites| > 0 {
      var field, rule := rewrites[0].0, rewrites[0].1;
      assert ApplyRewrite(ctx, field, rule, sub) == ctx by {
        match Lookup(ctx, field)
        case None =>
        case Some(v) => assert sub(rule, v).None?;
      }
      assert forall m :: 0 <= m < |rewrites| - 1 ==> rewrites[1..][m] == rewrites[m + 1];
      FailingRewritesKeepContext(ctx, rewrites[1..], sub);
    }
  }

  /** `"{{" + k + "}}"`, the placeholder for key `k`. */
  function Placeholder(k: string): (p: string)
    ensures |p| == |k| + 4
  {
    "{{" + k + "}}"
  }

  /** Lines 77-81: replace each key's placeholder by its value, in the context's order. */
  function Render(template: string, ctx: Context): string
    decreases |ctx|
  {
    if |ctx| == 0 then template
    else Render(Text.Replace(template, Placeholder(ctx[0].0), ctx[0].1), ctx[1..])
  }

  /** The characters stripped by full_migration_engine.py and full_migration_engine_optimized.py,
      in the order the `replace` chain removes them. */
  const FullForbidden: seq<char> := [':', '*', '?', '"', '<', '>', '|']

  /** The characters stripped by production_migration_engine.py. */
  const ProductionForbidden: seq<char> := [':', '*', '?']

  /** The chain `.replace(c, "")` for each `c` of `forbidden` in turn. */
  function Sanitize(s: string, forbidden: seq<char>): (r: string)
    ensures forall k :: 0 <= k < |r| ==> r[k] !in forbidden && r[k] in s
    ensures |r| <= |s|
    decreases |forbidden|
  {
    if |forbidden| == 0 then s
    else
      var once := Text.Replace(s, [forbidden[0]], "");
      Text.ReplaceCharByEmpty(s, forbidden[0]);
      var r := Sanitize(once, forbidden[1..]);
      assert forall k :: 0 <= k < |r| ==> r[k] != forbidden[0];
      r
  }

  /** The replace chain deletes exactly the forbidden characters and keeps every other
      character, in order. */
  lemma {:induction false} SanitizeIsFilter(s: string, forbidden: seq<char>)
    ensures Sanitize(s, forbidden) == Seqs.Filter(s, Text.IsNoneOf(forbidden))
    decreases |forbidden|
  {
    if |forbidden| > 0 {
      var c := forbidden[0];
      assert forbidden == [c] + forbidden[1..];
      Text.ReplaceCharByEmpty(s, c);
      SanitizeIsFilter(Text.Replace(s, [c], ""), forbidden[1..]);
      FilterTwice(s, Text.IsNot(c), Text.IsNoneOf(forbidden[1..]), Text.IsNoneOf(forbidden));
    } else {
      Seqs.FilterKeepsAll(s, Text.IsNoneOf(forbidden));
    }
  }

  lemma {:induction false} FilterTwice<T>(s: seq<T>, f: T -> bool, g: T -> bool, h: T -> bool)
    requires forall x :: h(x) == (f(x) && g(x))
    ensures Seqs.Filter(Seqs.Filter(s, f), g) == Seqs.Filter(s, h)
  {
    if |s| > 0 {
      FilterTwice(s[1..], f, g, h);
    }
  }

  /** The path configuration of `migration-config-full.json`. */
  datatype PathConfig = PathConfig(levels: seq<string>, rewrites: seq<(string, Rule)>, template: string)

  /** `resolve_target_path` up to, but not including, the final `os.path.normpath`. */
  function Resolve(cfg: PathConfig, hierarchy: seq<string>, filename: string, sub: RegexSub, forbidden: seq<char>): (path: string)
    ensures forall k :: 0 <= k < |path| ==> path[k] !in forbidden
  {
    var ctx := ApplyRewrites(BuildContext(cfg.levels, hierarchy, filename), cfg.rewrites, sub);
    Sanitize(Render(cfg.template, ctx), forbidden)
  }

  /** full_migration_engine.py and full_migration_engine_optimized.py: seven characters
      stripped, then `os.path.normpath` (a parameter here). */
  function ResolveFull(cfg: PathConfig, hierarchy: seq<string>, filename: string, sub: RegexSub, normpath: string -> string): (path: string)
    ensures path == normpath(Resolve(cfg, hierarchy, filename, sub, FullForbidden))
    ensures NormpathAddsNone(normpath, FullForbidden) ==> forall k :: 0 <= k < |path| ==> path[k] !in FullForbidden
  {
    var pre := Resolve(cfg, hierarchy, filename, sub, FullForbidden);
    normpath(pre)
  }

  /** production_migration_engine.py: only ':', '*' and '?' are stripped. */
  function ResolveProduction(cfg: PathConfig, hierarchy: seq<string>, filename: string, sub: RegexSub, normpath: string -> string): (path: string)
    ensures path == normpath(Resolve(cfg, hierarchy, filename, sub, ProductionForbidden))
    ensures NormpathAddsNone(normpath, ProductionForbidden) ==> forall k :: 0 <= k < |path| ==> path[k] !in ProductionForbidden
  {
    normpath(Resolve(cfg, hierarchy, filename, sub, ProductionForbidden))
  }

  /** The only thing assumed of `os.path.normpath`: it introduces none of the given characters. */
  ghost predicate NormpathAddsNone(normpath: string -> string, chars: seq<char>) {
    forall s: string, k: nat :: k < |normpath(s)| && normpath(s)[k] in chars ==> normpath(s)[k] in s
  }

  /** A key that contains no brace, as every level name and key of the configuration does. */
  predicate BraceFree(k: string) {
    '{' !in k && '}' !in k
  }

  /** In the placeholder of a brace-free key, only the first two characters are `{`,
      only the last two are `}`, and the key sits in between. */
  lemma PlaceholderShape(k: string)
    requires BraceFree(k)
    ensures forall d :: 0 <= d < |Placeholder(k)| ==> (Placeholder(k)[d] == '{' <==> d < 2)
    ensures forall d :: 0 <= d < |Placeholder(k)| ==> (Placeholder(k)[d] == '}' <==> d >= |k| + 2)
    ensures Placeholder(k)[2..|k| + 2] == k
  {
    var p := Placeholder(k);
    forall d | 2 <= d < |k| + 2 ensures p[d] == k[d - 2] {}
  }

  /** Where the placeholder of a brace-free key occurs, the braces sit exactly at its two ends. */
  lemma PlaceholderAt(s: string, k: string, i: nat)
    requires BraceFree(k) && Text.OccursAt(s, Placeholder(k), i)
    ensures forall m :: i <= m < i + |k| + 4 ==> (s[m] == '{' <==> m < i + 2)
    ensures forall m :: i <= m < i + |k| + 4 ==> (s[m] == '}' <==> m >= i + |k| + 2)
    ensures s[i + 2..i + |k| + 2] == k
  {
    PlaceholderShape(k);
    forall m | i <= m < i + |k| + 4 ensures s[m] == Placeholder(k)[m - i] {}
  }

  /** Placeholders of two different brace-free keys never overlap in a string. */
  lemma PlaceholdersDisjoint(s: string, a: string, z: string, i: nat, j: nat)
    requires BraceFree(a) && BraceFree(z) && a != z
    requires Text.OccursAt(s, Placeholder(z), i) && Text.OccursAt(s, Placeholder(a), j)
    ensures j + |Placeholder(a)| <= i || i + |Placeholder(z)| <= j
  {
    PlaceholderAt(s, a, j);
    PlaceholderAt(s, z, i);
    assert s[i] == '{' && s[i + 1] == '{' && s[j] == '{' && s[j + 1] == '{';
    assert s[i + |z| + 2] == '}' && s[j + |a| + 2] == '}';
  }

  /** Rendering leaves alone the placeholder of a brace-free key the context does not hold. */
  lemma {:induction false} RenderKeepsUnknownPlaceholder(template: string, ctx: Context, z: string)
    requires BraceFree(z) && z !in Keys(ctx)
    requires forall m :: 0 <= m < |ctx| ==> BraceFree(ctx[m].0)
    requires Text.Contains(template, Placeholder(z))
    ensures Text.Contains(Render(template, ctx), Placeholder(z))
    decreases |ctx|
  {
    if |ctx| > 0 {
      var i: nat :| Text.OccursAt(template, Placeholder(z), i);
      var a := ctx[0].0;
      assert a == Keys(ctx)[0];
      forall j: nat | Text.OccursAt(template, Placeholder(a), j)
        ensures j + |Placeholder(a)| <= i || i + |Placeholder(z)| <= j
      {
        PlaceholdersDisjoint(template, a, z, i, j);
      }
      Text.ReplaceKeepsOccurrence(template, Placeholder(a), ctx[0].1, Placeholder(z), i);
      assert forall m :: 0 <= m < |ctx| - 1 ==> Keys(ctx[1..])[m] == Keys(ctx)[m + 1];
      RenderKeepsUnknownPlaceholder(Text.Replace(template, Placeholder(a), ctx[0].1), ctx[1..], z);
    }
  }

  /** A template with no `{` renders to itself, whatever the context. */
  lemma {:induction false} RenderWithoutPlaceholders(template: string, ctx: Context)
    requires '{' !in template
    ensures Render(template, ctx) == template
    decreases |ctx|
  {
    if |ctx| > 0 {
      var p := Placeholder(ctx[0].0);
      forall i: nat | i < |template| ensures !Text.OccursAt(template, p, i) {
        assert template[i] != p[0];
      }
      Text.ReplaceAbsent(template, p, ctx[0].1);
      RenderWithoutPlaceholders(template, ctx[1..]);
    }
  }

  /** The keys of the context `resolve_target_path` renders with are the configured levels
      and `FileName`, whatever the rewrites do. */
  lemma RenderContextKeys(cfg: PathConfig, hierarchy: seq<string>, filename: string, sub: RegexSub, z: string)
    requires BraceFree(z) && z !in cfg.levels && z != "FileName"
    requires forall m :: 0 <= m < |cfg.levels| ==> BraceFree(cfg.levels[m])
    ensures var ctx := ApplyRewrites(BuildContext(cfg.levels, hierarchy, filename), cfg.rewrites, sub);
      z !in Keys(ctx) && forall m :: 0 <= m < |ctx| ==> BraceFree(ctx[m].0)
  {
    var base := BuildContext(cfg.levels, hierarchy, filename);
    var ctx := ApplyRewrites(base, cfg.rewrites, sub);
    BaseKeysBraceFree(cfg.levels, hierarchy, filename);
    assert Keys(ctx) == Keys(base);
  }

  /** The keys of the context before rewriting are the level names and `FileName`. */
  lemma BaseKeysBraceFree(levels: seq<string>, hierarchy: seq<string>, filename: string)
    requires forall m :: 0 <= m < |levels| ==> BraceFree(levels[m])
    ensures forall k :: k in Keys(BuildContext(levels, hierarchy, filename)) ==> BraceFree(k)
  {
    assert BraceFree("FileName");
  }

  /** A placeholder `{{z}}` in the template whose key is neither a configured level nor
      `FileName` is left in the resolved path literally, braces included, provided no
      character of it is stripped. */
  lemma UnknownPlaceholderSurvives(cfg: PathConfig, hierarchy: seq<string>, filename: string, sub: RegexSub, forbidden: seq<char>, z: string)
    requires BraceFree(z) && z !in cfg.levels && z != "FileName"
    requires forall m :: 0 <= m < |cfg.levels| ==> BraceFree(cfg.levels[m])
    requires forall d :: 0 <= d < |Placeholder(z)| ==> Placeholder(z)[d] !in forbidden
    requires Text.Contains(cfg.template, Placeholder(z))
    ensures Text.Contains(Resolve(cfg, hierarchy, filename, sub, forbidden), Placeholder(z))
  {
    var ctx := ApplyRewrites(BuildContext(cfg.levels, hierarchy, filename), cfg.rewrites, sub);
    RenderContextKeys(cfg, hierarchy, filename, sub, z);
    RenderKeepsUnknownPlaceholder(cfg.template, ctx, z);
    var rendered := Render(cfg.template, ctx);
    SanitizeIsFilter(rendered, forbidden);
    var i: nat :| Text.OccursAt(rendered, Placeholder(z), i);
    Text.FilterKeepsOccurrence(rendered, Text.IsNoneOf(forbidden), Placeholder(z), i);
  }

  /** A template read as text: literal runs without `{`, and placeholders of brace-free
      keys. */
  datatype Piece = Literal(text: string) | Slot(key: string)

  predicate PlainPiece(p: Piece) {
    match p
    case Literal(t) => '{' !in t
    case Slot(k) => BraceFree(k)
  }

  /** The characters a piece stands for in the template. */
  function Spelled(p: Piece): string {
    match p
    case Literal(t) => t
    case Slot(k) => Placeholder(k)
  }

  function Flatten(ps: seq<Piece>): string
    decreases |ps|
  {
    if |ps| == 0 then "" else Spelled(ps[0]) + Flatten(ps[1..])
  }

  /** A context whose keys are brace-free and whose values hold no `{`. */
  predicate PlainContext(ctx: Context) {
    forall m :: 0 <= m < |ctx| ==> BraceFree(ctx[m].0) && '{' !in ctx[m].1
  }

  /** A placeholder whose key the context holds becomes the key's value. */
  function Bind(p: Piece, ctx: Context): (r: Piece)
    ensures p.Literal? ==> r == p
    ensures p.Slot? && p.key !in Keys(ctx) ==> r == p
    ensures p.Slot? && p.key in Keys(ctx) ==> r == Literal(Lookup(ctx, p.key).value)
  {
    if p.Slot? && Lookup(ctx, p.key).Some? then Literal(Lookup(ctx, p.key).value) else p
  }

  function BindAll(ps: seq<Piece>, ctx: Context): (r: seq<Piece>)
    ensures |r| == |ps|
    ensures forall i :: 0 <= i < |ps| ==> r[i] == Bind(ps[i], ctx)
  {
    seq(|ps|, i requires 0 <= i < |ps| => Bind(ps[i], ctx))
  }

  /** Lines 77-81 mean what the template says: rendering a template of literal text and
      placeholders replaces every placeholder whose key the context holds by that key's
      value and leaves every other placeholder as it is. */
  lemma {:induction false} RenderBindsPlaceholders(ps: seq<Piece>, ctx: Context)
    requires forall i :: 0 <= i < |ps| ==> PlainPiece(ps[i])
    requires PlainContext(ctx)
    ensures Render(Flatten(ps), ctx) == Flatten(BindAll(ps, ctx))
    decreases |ctx|
  {
    if |ctx| == 0 {
      assert BindAll(ps, ctx) == ps;
    } else {
      var a, v := ctx[0].0, ctx[0].1;
      var one: Context := [(a, v)];
      ReplaceSlot(ps, a, v);
      var next := BindAll(ps, one);
      forall i | 0 <= i < |next| ensures PlainPiece(next[i]) {}
      assert forall m :: 0 <= m < |ctx| - 1 ==> ctx[1..][m] == ctx[m + 1];
      RenderBindsPlaceholders(next, ctx[1..]);
      BindTwice(ps, a, v, ctx[1..]);
      assert ctx == one + ctx[1..];
    }
  }

  /** Binding one key and then the rest is binding the whole context. */
  lemma BindTwice(ps: seq<Piece>, a: string, v: string, rest: Context)
    ensures BindAll(BindAll(ps, [(a, v)]), rest) == BindAll(ps, [(a, v)] + rest)
  {
    var ctx := [(a, v)] + rest;
    forall i | 0 <= i < |ps| ensures Bind(Bind(ps[i], [(a, v)]), rest) == Bind(ps[i], ctx) {
      LookupCons((a, v), rest);
      assert Lookup([(a, v)], a) == Some(v);
      if ps[i].Slot? && ps[i].key != a {
        assert Lookup([(a, v)], ps[i].key) == None;
      }
    }
  }

  /** One `replace` of the chain: the placeholders of `a` become `v`, and nothing else of
      the template changes. */
  lemma {:induction false} ReplaceSlot(ps: seq<Piece>, a: string, v: string)
    requires forall i :: 0 <= i < |ps| ==> PlainPiece(ps[i])
    requires BraceFree(a)
    ensures Text.Replace(Flatten(ps), Placeholder(a), v) == Flatten(BindAll(ps, [(a, v)]))
    decreases |ps|
  {
    var bound := BindAll(ps, [(a, v)]);
    if |ps| > 0 {
      assert forall i :: 0 <= i < |ps| - 1 ==> ps[1..][i] == ps[i + 1];
      ReplaceSlot(ps[1..], a, v);
      assert bound[1..] == BindAll(ps[1..], [(a, v)]);
      ReplaceHead(ps[0], Flatten(ps[1..]), a, v);
    }
  }

  /** `replace` handles the first piece on its own and carries on after it. */
  lemma ReplaceHead(p: Piece, rest: string, a: string, v: string)
    requires PlainPiece(p) && BraceFree(a)
    ensures Text.Replace(Spelled(p) + rest, Placeholder(a), v) == Spelled(Bind(p, [(a, v)])) + Text.Replace(rest, Placeholder(a), v)
  {
    var s := Spelled(p) + rest;
    var pa := Placeholder(a);
    assert Lookup([(a, v)], a) == Some(v);
    match p
    case Literal(t) =>
      forall j: nat | j < |t| ensures !Text.OccursAt(s, pa, j) {
        assert s[j] == t[j];
        if j + |pa| <= |s| {
          assert s[j..j + |pa|][0] == t[j];
        }
      }
      Text.ReplaceUnmatchedPrefix(s, pa, v, |t|);
      assert s[..|t|] == t && s[|t|..] == rest;
    case Slot(k) =>
      if k == a {
        assert s[..|pa|] == pa && s[|pa|..] == rest;
      } else {
        assert Lookup([(a, v)], k) == None;
        var head := Placeholder(k);
        forall j: nat | j < |head| ensures !Text.OccursAt(s, pa, j) {
          NoOtherPlaceholderInSlot(k, a, rest, j);
        }
        Text.ReplaceUnmatchedPrefix(s, pa, v, |head|);
        assert s[..|head|] == head && s[|head|..] == rest;
      }
  }

  lemma NoOtherPlaceholderInSlot(k: string, a: string, rest: string, j: nat)
    requires BraceFree(k) && BraceFree(a) && k != a && j < |Placeholder(k)|
    ensures !Text.OccursAt(Placeholder(k) + rest, Placeholder(a), j)
  {
    var s := Placeholder(k) + rest;
    var pk, pa := Placeholder(k), Placeholder(a);
    if j + |pa| <= |s| {
      PlaceholderShape(k);
      PlaceholderShape(a);
      var m := Mismatch(k, a, j);
      assert s[j + m] == pk[j + m];
      assert s[j..j + |pa|][m] != pa[m];
    }
  }

  /** A position at which the placeholder of `a`, laid at `j` inside the placeholder of
      `k`, differs from it. */
  lemma Mismatch(k: string, a: string, j: nat) returns (m: nat)
    requires BraceFree(k) && BraceFree(a) && k != a && j < |Placeholder(k)|
    ensures m < |Placeholder(a)| && j + m < |Placeholder(k)|
    ensures Placeholder(k)[j + m] != Placeholder(a)[m]
  {
    var pk, pa := Placeholder(k), Placeholder(a);
    PlaceholderShape(k);
    PlaceholderShape(a);
    if j >= 2 {
      m := 0;
    } else if j == 1 {
      m := 1;
    } else if |a| < |k| {
      m := |a| + 2;
    } else if |a| > |k| {
      m := |k| + 2;
    } else {
      var i :| 0 <= i < |k| && k[i] != a[i];
      assert pk[i + 2] == pk[2..|k| + 2][i];
      assert pa[i + 2] == pa[2..|a| + 2][i];
      m := i + 2;
    }
  }

  /** The placeholder of a key no slot names does not occur in a template of plain pieces. */
  lemma {:induction false} NoPlaceholderWithoutSlot(ps: seq<Piece>, k: string)
    requires forall i :: 0 <= i < |ps| ==> PlainPiece(ps[i]) && ps[i] != Slot(k)
    requires BraceFree(k)
    ensures !Text.Contains(Flatten(ps), Placeholder(k))
    decreases |ps|
  {
    if |ps| > 0 {
      assert forall i :: 0 <= i < |ps| - 1 ==> ps[1..][i] == ps[i + 1];
      NoPlaceholderWithoutSlot(ps[1..], k);
      forall j: nat ensures !Text.OccursAt(Flatten(ps), Placeholder(k), j) {
        NotAfterPlainPiece(ps[0], Flatten(ps[1..]), k, j);
      }
    }
  }

  /** A placeholder that does not occur in `rest` does not occur once a plain piece other
      than its own slot is put in front. */
  lemma NotAfterPlainPiece(piece: Piece, rest: string, k: string, j: nat)
    requires PlainPiece(piece) && piece != Slot(k) && BraceFree(k)
    requires !Text.Contains(rest, Placeholder(k))
    ensures !Text.OccursAt(Spelled(piece) + rest, Placeholder(k), j)
  {
    var s := Spelled(piece) + rest;
    var head := Spelled(piece);
    var p := Placeholder(k);
    if j + |p| <= |s| {
      if j < |head| {
        match piece
        case Literal(t) =>
          assert s[j..j + |p|][0] == t[j];
        case Slot(u) =>
          NoOtherPlaceholderInSlot(u, k, rest, j);
      } else {
        assert s[j..j + |p|] == rest[j - |head|..j - |head| + |p|];
        assert !Text.OccursAt(rest, p, j - |head|);
      }
    }
  }

  /** The value a plain context holds for a key contains no `{`. */
  lemma {:induction false} LookupPlain(ctx: Context, k: string)
    requires PlainContext(ctx) && k in Keys(ctx)
    ensures '{' !in Lookup(ctx, k).value
    decreases |ctx|
  {
    if ctx[0].0 != k {
      assert Keys(ctx)[1..] == Keys(ctx[1..]);
      assert forall m :: 0 <= m < |ctx| - 1 ==> ctx[1..][m] == ctx[m + 1];
      LookupPlain(ctx[1..], k);
    }
  }

  /** After rendering a template of plain pieces, no placeholder of a key the context holds
      is left. */
  lemma RenderLeavesNoKnownPlaceholder(ps: seq<Piece>, ctx: Context, k: string)
    requires forall i :: 0 <= i < |ps| ==> PlainPiece(ps[i])
    requires PlainContext(ctx)
    requires BraceFree(k) && k in Keys(ctx)
    ensures !Text.Contains(Render(Flatten(ps), ctx), Placeholder(k))
  {
    RenderBindsPlaceholders(ps, ctx);
    var bound := BindAll(ps, ctx);
    forall i | 0 <= i < |bound| ensures PlainPiece(bound[i]) && bound[i] != Slot(k) {
      if ps[i].Slot? && ps[i].key in Keys(ctx) {
        LookupPlain(ctx, ps[i].key);
      }
    }
    NoPlaceholderWithoutSlot(bound, k);
  }

  /** A template that is one placeholder renders to the key's value. */
  lemma RenderOnePlaceholder(k: string, ctx: Context)
    requires BraceFree(k) && PlainContext(ctx) && k in Keys(ctx)
    ensures Render(Placeholder(k), ctx) == Lookup(ctx, k).value
  {
    var ps := [Slot(k)];
    var v := Lookup(ctx, k).value;
    assert Flatten(ps[1..]) == "";
    assert Flatten(ps) == Placeholder(k);
    RenderBindsPlaceholders(ps, ctx);
    var bound := BindAll(ps, ctx);
    assert bound[0] == Literal(v) && bound[1..] == [];
    assert Flatten(bound[1..]) == "";
    assert Flatten(bound) == v;
  }
}
