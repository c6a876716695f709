/** Import rewriting: qualified and selectively imported names become module-prefixed ones. */
module Rewriting {
  import opened Wrappers
  import opened Ir
  import opened IrValues
  import opened Strings

  datatype Directive = Directive(prefix: string, only: Option<seq<string>>, moduleName: string)

  datatype Error = NotPublic(symbol: string, moduleName: string)

  type Publics = map<string, seq<string>>

  /** The position of the first directive with the prefix, or the number of directives. */
  function FindPrefix(ds: seq<Directive>, prefix: string): (i: nat)
    ensures i <= |ds| && (i < |ds| ==> ds[i].prefix == prefix)
    ensures forall j :: 0 <= j < i ==> ds[j].prefix != prefix
  {
    if ds == [] || ds[0].prefix == prefix then 0 else 1 + FindPrefix(ds[1..], prefix)
  }

  predicate Selects(d: Directive, name: string) {
    d.only.Some? && name in d.only.value
  }

  function FindOnly(ds: seq<Directive>, name: string): (i: nat)
    ensures i <= |ds| && (i < |ds| ==> Selects(ds[i], name))
    ensures forall j :: 0 <= j < i ==> !Selects(ds[j], name)
  {
    if ds == [] || Selects(ds[0], name) then 0 else 1 + FindOnly(ds[1..], name)
  }

  /** A module whose public symbols are unknown exports everything. */
  predicate Visible(publics: Publics, moduleName: string, symbol: string) {
    moduleName in publics ==> symbol in publics[moduleName]
  }

  function Export(publics: Publics, moduleName: string, symbol: string): Result<Option<string>, Error> {
    if Visible(publics, moduleName, symbol) then Ok(Some(moduleName + "_" + symbol))
    else Err(NotPublic(symbol, moduleName))
  }

  function RewriteName(name: string, ds: seq<Directive>, publics: Publics): Result<Option<string>, Error> {
    var dot := IndexOf(name, '.');
    var p := if dot < |name| then FindPrefix(ds, name[..dot]) else |ds|;
    if p < |ds| then Export(publics, ds[p].moduleName, name[dot + 1..])
    else
      var o := FindOnly(ds, name);
      if o < |ds| then Export(publics, ds[o].moduleName, name) else Ok(None)
  }

  /** `name` is `prefix.symbol` for the first directive with that prefix; a prefix has no dot. */
  ghost predicate Qualifies(name: string, ds: seq<Directive>, i: nat, symbol: string) {
    && i < |ds| && name == ds[i].prefix + "." + symbol && '.' !in ds[i].prefix
    && forall j :: 0 <= j < i ==> ds[j].prefix != ds[i].prefix
  }

  /** `name` is selected by an `:only` list, first in order, and is not a qualified name. */
  ghost predicate Selected(name: string, ds: seq<Directive>, i: nat) {
    && i < |ds| && ds[i].only.Some? && name in ds[i].only.value
    && (forall j :: 0 <= j < i ==> ds[j].only.None? || name !in ds[j].only.value)
    && forall k: nat, symbol :: !Qualifies(name, ds, k, symbol)
  }

  /** The symbol may not be imported: the module's public symbols are known, and it is none of them. */
  predicate Hidden(publics: Publics, moduleName: string, symbol: string) {
    moduleName in publics && symbol !in publics[moduleName]
  }

  /** A name is rewritten to the module and symbol it stands for, refused exactly when that symbol is
      private, and kept when it stands for no import. */
  lemma RewriteNameMeaning(name: string, ds: seq<Directive>, publics: Publics)
    ensures forall i: nat, symbol :: Qualifies(name, ds, i, symbol) ==>
              var m := ds[i].moduleName;
              if Hidden(publics, m, symbol) then RewriteName(name, ds, publics) == Err(NotPublic(symbol, m))
              else RewriteName(name, ds, publics) == Ok(Some(m + "_" + symbol)) && Target(ds, publics)(name) == m + "_" + symbol
    ensures forall i: nat :: Selected(name, ds, i) ==>
              var m := ds[i].moduleName;
              if Hidden(publics, m, name) then RewriteName(name, ds, publics) == Err(NotPublic(name, m))
              else RewriteName(name, ds, publics) == Ok(Some(m + "_" + name)) && Target(ds, publics)(name) == m + "_" + name
    ensures (forall i: nat, symbol :: !Qualifies(name, ds, i, symbol)) && (forall i: nat :: !Selected(name, ds, i)) ==>
              RewriteName(name, ds, publics) == Ok(None) && Target(ds, publics)(name) == name
  {
    var dot := IndexOf(name, '.');
    forall i: nat, symbol | Qualifies(name, ds, i, symbol)
      ensures dot < |name| && name[..dot] == ds[i].prefix && name[dot + 1..] == symbol && FindPrefix(ds, name[..dot]) == i
    {
      DotAfterPrefix(name, ds[i].prefix, symbol);
      FindPrefixIs(ds, ds[i].prefix, i);
    }
    var p := if dot < |name| then FindPrefix(ds, name[..dot]) else |ds|;
    var o := FindOnly(ds, name);
    if p < |ds| {
      assert name == ds[p].prefix + "." + name[dot + 1..];
    }
    assert p < |ds| ==> Qualifies(name, ds, p, name[dot + 1..]);
    assert p == |ds| && o < |ds| ==> Selected(name, ds, o);
  }

  lemma {:induction false} FindPrefixIs(ds: seq<Directive>, prefix: string, i: nat)
    requires i < |ds| && ds[i].prefix == prefix && forall j :: 0 <= j < i ==> ds[j].prefix != prefix
    ensures FindPrefix(ds, prefix) == i
  {
    var k := FindPrefix(ds, prefix);
  }

  lemma DotAfterPrefix(name: string, prefix: string, symbol: string)
    requires name == prefix + "." + symbol && '.' !in prefix
    ensures IndexOf(name, '.') == |prefix| && name[..|prefix|] == prefix && name[|prefix| + 1..] == symbol
  {
    var dot := IndexOf(name, '.');
    assert name[|prefix|] == '.';
    assert forall j :: 0 <= j < |prefix| ==> name[j] == prefix[j];
  }

  // ----- rewriting a node -----

  function RewriteNode(n: Node, ds: seq<Directive>, publics: Publics): Result<Node, Error>
    decreases n, 1
  {
    match n
    case Lit(_) => Ok(n)
    case Load(name) =>
      var r := RewriteName(name, ds, publics);
      if r.Err? then Err(r.error) else Ok(if r.value.Some? then Load(r.value.value) else n)
    case Call(name, args) =>
      var newArgs := RewriteAll(args, ds, publics);
      if newArgs.Err? then Err(newArgs.error)
      else
        var r := RewriteName(name, ds, publics);
        if r.Err? then Err(r.error)
        else Ok(Call(if r.value.Some? then r.value.value else name, newArgs.value))
    case CallExpr(callee, args) =>
      var f := RewriteNode(callee, ds, publics);
      if f.Err? then f
      else
        var newArgs := RewriteAll(args, ds, publics);
        if newArgs.Err? then Err(newArgs.error) else Ok(CallExpr(f.value, newArgs.value))
    case If(cond, thn, els) =>
      var c := RewriteNode(cond, ds, publics);
      if c.Err? then c
      else
        var t := RewriteNode(thn, ds, publics);
        if t.Err? then t
        else
          var e := RewriteNode(els, ds, publics);
          if e.Err? then e else Ok(If(c.value, t.value, e.value))
    case Do(nodes) =>
      var r := RewriteAll(nodes, ds, publics);
      if r.Err? then Err(r.error) else Ok(Do(r.value))
    case Let(bindings, body) =>
      var bs := RewriteBindings(bindings, ds, publics);
      if bs.Err? then Err(bs.error)
      else
        var b := RewriteNode(body, ds, publics);
        if b.Err? then b else Ok(Let(bs.value, b.value))
    case Func(name, params, body) =>
      var b := RewriteNode(body, ds, publics);
      if b.Err? then b else Ok(Func(name, params, b.value))
    case Lambda(params, body) =>
      var b := RewriteNode(body, ds, publics);
      if b.Err? then b else Ok(Lambda(params, b.value))
    case ListOf(items) =>
      var r := RewriteAll(items, ds, publics);
      if r.Err? then Err(r.error) else Ok(ListOf(r.value))
    case Variant(tag, args) =>
      var r := RewriteAll(args, ds, publics);
      if r.Err? then Err(r.error) else Ok(Variant(tag, r.value))
    case Match(scrutinee, arms) =>
      var newArms := RewriteArms(arms, ds, publics);
      if newArms.Err? then Err(newArms.error)
      else
        var s := RewriteNode(scrutinee, ds, publics);
        if s.Err? then s else Ok(Match(s.value, newArms.value))
    case Try(inner) =>
      var r := RewriteNode(inner, ds, publics);
      if r.Err? then r else Ok(Try(r.value))
  }

  function RewriteAll(ns: seq<Node>, ds: seq<Directive>, publics: Publics): Result<seq<Node>, Error>
    decreases ns, 0
  {
    if ns == [] then Ok([])
    else
      var first := RewriteNode(ns[0], ds, publics);
      if first.Err? then Err(first.error)
      else
        var rest := RewriteAll(ns[1..], ds, publics);
        if rest.Err? then rest else Ok([first.value] + rest.value)
  }

  function RewriteBindings(bs: seq<IrBinding>, ds: seq<Directive>, publics: Publics): Result<seq<IrBinding>, Error>
    decreases bs, 0
  {
    if bs == [] then Ok([])
    else
      var first := RewriteNode(bs[0].expr, ds, publics);
      if first.Err? then Err(first.error)
      else
        var rest := RewriteBindings(bs[1..], ds, publics);
        if rest.Err? then rest else Ok([IrBinding(bs[0].name, first.value)] + rest.value)
  }

  function RewriteArms(arms: seq<Arm>, ds: seq<Directive>, publics: Publics): Result<seq<Arm>, Error>
    decreases arms, 0
  {
    if arms == [] then Ok([])
    else
      var first := RewriteArm(arms[0], ds, publics);
      if first.Err? then Err(first.error)
      else
        var rest := RewriteArms(arms[1..], ds, publics);
        if rest.Err? then rest else Ok([first.value] + rest.value)
  }

  function RewriteArm(arm: Arm, ds: seq<Directive>, publics: Publics): Result<Arm, Error>
    decreases arm, 0
  {
    var b := RewriteNode(arm.body, ds, publics);
    if b.Err? then Err(b.error) else Ok(Arm(arm.pattern, b.value))
  }

  // ----- the same as a plain renaming -----

  /** Every name through `f`, binders untouched. */
  function Rename(n: Node, f: string -> string): Node
    decreases n, 1
  {
    match n
    case Lit(_) => n
    case Load(name) => Load(f(name))
    case Call(name, args) => Call(f(name), RenameAll(args, f))
    case CallExpr(callee, args) => CallExpr(Rename(callee, f), RenameAll(args, f))
    case If(cond, thn, els) => If(Rename(cond, f), Rename(thn, f), Rename(els, f))
    case Do(nodes) => Do(RenameAll(nodes, f))
    case Let(bindings, body) => Let(RenameBindings(bindings, f), Rename(body, f))
    case Func(name, params, body) => Func(name, params, Rename(body, f))
    case Lambda(params, body) => Lambda(params, Rename(body, f))
    case ListOf(items) => ListOf(RenameAll(items, f))
    case Variant(tag, args) => Variant(tag, RenameAll(args, f))
    case Match(scrutinee, arms) => Match(Rename(scrutinee, f), RenameArms(arms, f))
    case Try(inner) => Try(Rename(inner, f))
  }

  function RenameAll(ns: seq<Node>, f: string -> string): (r: seq<Node>)
    ensures |r| == |ns|
    decreases ns, 0
  {
    if ns == [] then [] else [Rename(ns[0], f)] + RenameAll(ns[1..], f)
  }

  function RenameBindings(bs: seq<IrBinding>, f: string -> string): (r: seq<IrBinding>)
    ensures |r| == |bs|
    decreases bs, 0
  {
    if bs == [] then [] else [IrBinding(bs[0].name, Rename(bs[0].expr, f))] + RenameBindings(bs[1..], f)
  }

  function RenameArms(arms: seq<Arm>, f: string -> string): (r: seq<Arm>)
    ensures |r| == |arms|
    decreases arms, 0
  {
    if arms == [] then [] else [RenameArm(arms[0], f)] + RenameArms(arms[1..], f)
  }

  function RenameArm(arm: Arm, f: string -> string): Arm
    decreases arm, 0
  {
    Arm(arm.pattern, Rename(arm.body, f))
  }

  /** What each name of the importing module stands for. */
  function Target(ds: seq<Directive>, publics: Publics): string -> string {
    (name: string) =>
      var r := RewriteName(name, ds, publics);
      if r.Ok? && r.value.Some? then r.value.value else name
  }

  /** The names that a node refers to, in the order in which they are looked up. */
  function References(n: Node): seq<string>
    decreases n, 1
  {
    match n
    case Lit(_) => []
    case Load(name) => [name]
    case Call(name, args) => ReferencesAll(args) + [name]
    case CallExpr(callee, args) => References(callee) + ReferencesAll(args)
    case If(cond, thn, els) => References(cond) + (References(thn) + References(els))
    case Do(nodes) => ReferencesAll(nodes)
    case Let(bindings, body) => ReferencesLet(bindings) + References(body)
    case Func(_, _, body) => References(body)
    case Lambda(_, body) => References(body)
    case ListOf(items) => ReferencesAll(items)
    case Variant(_, args) => ReferencesAll(args)
    case Match(scrutinee, arms) => ReferencesArms(arms) + References(scrutinee)
    case Try(inner) => References(inner)
  }

  function ReferencesAll(ns: seq<Node>): seq<string>
    decreases ns, 0
  {
    if ns == [] then [] else References(ns[0]) + ReferencesAll(ns[1..])
  }

  function ReferencesLet(bs: seq<IrBinding>): seq<string>
    decreases bs, 0
  {
    if bs == [] then [] else References(bs[0].expr) + ReferencesLet(bs[1..])
  }

  function ReferencesArms(arms: seq<Arm>): seq<string>
    decreases arms, 0
  {
    if arms == [] then [] else ReferencesArm(arms[0]) + ReferencesArms(arms[1..])
  }

  function ReferencesArm(arm: Arm): seq<string>
    decreases arm, 0
  {
    References(arm.body)
  }

  /** The first refusal among some names. */
  function FirstError(names: seq<string>, ds: seq<Directive>, publics: Publics): Option<Error> {
    if names == [] then None
    else
      var r := RewriteName(names[0], ds, publics);
      if r.Err? then Some(r.error) else FirstError(names[1..], ds, publics)
  }

  lemma {:induction false} FirstErrorConcat(a: seq<string>, b: seq<string>, ds: seq<Directive>, publics: Publics)
    ensures FirstError(a + b, ds, publics) ==
              if FirstError(a, ds, publics).Some? then FirstError(a, ds, publics) else FirstError(b, ds, publics)
  {
    if a == [] {
      assert a + b == b;
    } else {
      FirstErrorConcat(a[1..], b, ds, publics);
      assert (a + b)[1..] == a[1..] + b;
    }
  }

  function Outcome<T>(e: Option<Error>, v: T): Result<T, Error> {
    if e.Some? then Err(e.value) else Ok(v)
  }

  /** Every name that the node binds satisfies `p`. */
  predicate Binders(n: Node, p: string -> bool)
    decreases n, 1
  {
    match n
    case Lit(_) => true
    case Load(_) => true
    case Call(_, args) => BindersAll(args, p)
    case CallExpr(callee, args) => Binders(callee, p) && BindersAll(args, p)
    case If(cond, thn, els) => Binders(cond, p) && Binders(thn, p) && Binders(els, p)
    case Do(nodes) => BindersAll(nodes, p)
    case Let(bindings, body) => BindersLet(bindings, p) && Binders(body, p)
    case Func(_, params, body) => Names(params, p) && Binders(body, p)
    case Lambda(params, body) => Names(params, p) && Binders(body, p)
    case ListOf(items) => BindersAll(items, p)
    case Variant(_, args) => BindersAll(args, p)
    case Match(scrutinee, arms) => Binders(scrutinee, p) && BindersArms(arms, p)
    case Try(inner) => Binders(inner, p)
  }

  predicate Names(names: seq<string>, p: string -> bool) {
    forall i :: 0 <= i < |names| ==> p(names[i])
  }

  predicate BindersAll(ns: seq<Node>, p: string -> bool)
    decreases ns, 0
  {
    ns == [] || (Binders(ns[0], p) && BindersAll(ns[1..], p))
  }

  predicate BindersLet(bs: seq<IrBinding>, p: string -> bool)
    decreases bs, 0
  {
    bs == [] || (p(bs[0].name) && Binders(bs[0].expr, p) && BindersLet(bs[1..], p))
  }

  predicate BindersArms(arms: seq<Arm>, p: string -> bool)
    decreases arms, 0
  {
    arms == [] || (BindersArm(arms[0], p) && BindersArms(arms[1..], p))
  }

  predicate BindersArm(arm: Arm, p: string -> bool)
    decreases arm, 0
  {
    BindersPattern(arm.pattern, p) && Binders(arm.body, p)
  }

  lemma NoReference(ds: seq<Directive>, publics: Publics)
    ensures FirstError([], ds, publics) == None
  {
  }

  lemma OneReference(name: string, ds: seq<Directive>, publics: Publics)
    ensures var r := RewriteName(name, ds, publics);
            if r.Err? then FirstError([name], ds, publics) == Some(r.error)
            else FirstError([name], ds, publics) == None &&
                 Target(ds, publics)(name) == if r.value.Some? then r.value.value else name
  {
    hide RewriteName;
    assert [name][1..] == [];
  }

  /** Rewriting stops at the first refused reference, and otherwise renames every reference to what it
      stands for. */
  lemma {:induction false} RewriteIsRename(n: Node, ds: seq<Directive>, publics: Publics)
    ensures RewriteNode(n, ds, publics) == Outcome(FirstError(References(n), ds, publics), Rename(n, Target(ds, publics)))
    decreases n, 1
  {
    hide FirstError, RewriteName, Target;
    match n
    case Lit(_) =>
      NoReference(ds, publics);
    case Load(name) =>
      OneReference(name, ds, publics);
    case Call(name, args) =>
      RewriteAllIsRename(args, ds, publics);
      FirstErrorConcat(ReferencesAll(args), [name], ds, publics);
      OneReference(name, ds, publics);
    case CallExpr(callee, args) =>
      RewriteIsRename(callee, ds, publics);
      RewriteAllIsRename(args, ds, publics);
      FirstErrorConcat(References(callee), ReferencesAll(args), ds, publics);
    case If(cond, thn, els) =>
      RewriteIsRename(cond, ds, publics);
      RewriteIsRename(thn, ds, publics);
      RewriteIsRename(els, ds, publics);
      FirstErrorConcat(References(thn), References(els), ds, publics);
      FirstErrorConcat(References(cond), References(thn) + References(els), ds, publics);
    case Do(nodes) => RewriteAllIsRename(nodes, ds, publics);
    case Let(bindings, body) =>
      RewriteBindingsIsRename(bindings, ds, publics);
      RewriteIsRename(body, ds, publics);
      FirstErrorConcat(ReferencesLet(bindings), References(body), ds, publics);
    case Func(_, _, body) => RewriteIsRename(body, ds, publics);
    case Lambda(_, body) => RewriteIsRename(body, ds, publics);
    case ListOf(items) => RewriteAllIsRename(items, ds, publics);
    case Variant(_, args) => RewriteAllIsRename(args, ds, publics);
    case Match(scrutinee, arms) =>
      RewriteArmsIsRename(arms, ds, publics);
      RewriteIsRename(scrutinee, ds, publics);
      FirstErrorConcat(ReferencesArms(arms), References(scrutinee), ds, publics);
    case Try(inner) => RewriteIsRename(inner, ds, publics);
  }

  lemma {:induction false} RewriteAllIsRename(ns: seq<Node>, ds: seq<Directive>, publics: Publics)
    ensures RewriteAll(ns, ds, publics) == Outcome(FirstError(ReferencesAll(ns), ds, publics), RenameAll(ns, Target(ds, publics)))
    decreases ns, 0
  {
    if ns != [] {
      RewriteIsRename(ns[0], ds, publics);
      RewriteAllIsRename(ns[1..], ds, publics);
      FirstErrorConcat(References(ns[0]), ReferencesAll(ns[1..]), ds, publics);
      hide FirstError;
    }
  }

  lemma {:induction false} RewriteBindingsIsRename(bs: seq<IrBinding>, ds: seq<Directive>, publics: Publics)
    ensures RewriteBindings(bs, ds, publics) ==
              Outcome(FirstError(ReferencesLet(bs), ds, publics), RenameBindings(bs, Target(ds, publics)))
    decreases bs, 0
  {
    if bs != [] {
      RewriteIsRename(bs[0].expr, ds, publics);
      RewriteBindingsIsRename(bs[1..], ds, publics);
      FirstErrorConcat(References(bs[0].expr), ReferencesLet(bs[1..]), ds, publics);
      hide FirstError;
    }
  }

  lemma {:induction false} RewriteArmsIsRename(arms: seq<Arm>, ds: seq<Directive>, publics: Publics)
    ensures RewriteArms(arms, ds, publics) ==
              Outcome(FirstError(ReferencesArms(arms), ds, publics), RenameArms(arms, Target(ds, publics)))
    decreases arms, 0
  {
    if arms != [] {
      RewriteArmIsRename(arms[0], ds, publics);
      RewriteArmsIsRename(arms[1..], ds, publics);
      FirstErrorConcat(ReferencesArm(arms[0]), ReferencesArms(arms[1..]), ds, publics);
      hide FirstError;
    }
  }

  lemma {:induction false} RewriteArmIsRename(arm: Arm, ds: seq<Directive>, publics: Publics)
    ensures RewriteArm(arm, ds, publics) ==
              Outcome(FirstError(ReferencesArm(arm), ds, publics), RenameArm(arm, Target(ds, publics)))
    decreases arm, 0
  {
    RewriteIsRename(arm.body, ds, publics);
  }

  /** `name` stands for a symbol that is not public. */
  ghost predicate Refused(name: string, ds: seq<Directive>, publics: Publics, e: Error) {
    || (exists i: nat, symbol ::
          Qualifies(name, ds, i, symbol) && Hidden(publics, ds[i].moduleName, symbol) && e == NotPublic(symbol, ds[i].moduleName))
    || exists i: nat :: Selected(name, ds, i) && Hidden(publics, ds[i].moduleName, name) && e == NotPublic(name, ds[i].moduleName)
  }

  ghost predicate NoneRefused(names: seq<string>, ds: seq<Directive>, publics: Publics) {
    forall name, e :: name in names ==> !Refused(name, ds, publics, e)
  }

  lemma RefusedIsError(name: string, ds: seq<Directive>, publics: Publics, e: Error)
    ensures Refused(name, ds, publics, e) <==> RewriteName(name, ds, publics) == Err(e)
  {
    RewriteNameMeaning(name, ds, publics);
    hide RewriteName;
  }

  /** Rewriting fails exactly when some reference is refused, and then with the error of the first. */
  lemma RewriteFails(n: Node, ds: seq<Directive>, publics: Publics)
    ensures RewriteNode(n, ds, publics).Err? <==>
              exists name, e :: name in References(n) && Refused(name, ds, publics, e)
    ensures forall before, name, after, e ::
              References(n) == before + [name] + after && NoneRefused(before, ds, publics) && Refused(name, ds, publics, e) ==>
                RewriteNode(n, ds, publics) == Err(e)
  {
    RewriteIsRename(n, ds, publics);
    hide RewriteNode, Refused, Hidden;
    var names := References(n);
    FirstErrorIs(names, ds, publics);
    forall before, name, after, e |
        names == before + [name] + after && NoneRefused(before, ds, publics) && Refused(name, ds, publics, e)
      ensures RewriteNode(n, ds, publics) == Err(e)
    {
      FirstErrorIs(before, ds, publics);
      FirstErrorConcat(before, [name] + after, ds, publics);
      assert before + ([name] + after) == names;
      RefusedIsError(name, ds, publics, e);
    }
  }

  lemma {:induction false} FirstErrorIs(names: seq<string>, ds: seq<Directive>, publics: Publics)
    ensures FirstError(names, ds, publics).Some? <==> exists name, e :: name in names && Refused(name, ds, publics, e)
  {
    hide Refused;
    if names != [] {
      FirstErrorIs(names[1..], ds, publics);
      var r := RewriteName(names[0], ds, publics);
      hide RewriteName;
      if r.Err? {
        RefusedIsError(names[0], ds, publics, r.error);
        assert names[0] in names;
      } else {
        forall e
          ensures !Refused(names[0], ds, publics, e)
        {
          RefusedIsError(names[0], ds, publics, e);
        }
        assert forall name :: name in names <==> name == names[0] || name in names[1..];
      }
    }
  }
}
