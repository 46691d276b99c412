/**
 * Resolution of references in BUILD files: the walk from an element up its
 * ancestors that offers every symbol in scope to a processor callback, and
 * the searches built on that walk.
 */
module ResolveUtil {
  import opened Wrappers
  import opened Psi
  import opened Processor

  // ---------------------------------------------------------------------
  // Candidates offered by each kind of scope
  // ---------------------------------------------------------------------

  /** The left-hand targets of `assignments`, in child order, skipping assignments without one. */
  function AssignmentTargets(assignments: seq<Assignment>): seq<Symbol>
  {
    if assignments == [] then []
    else
      var first := assignments[0];
      (if first.lhs.Some? then [first.lhs.value] else []) + AssignmentTargets(assignments[1..])
  }

  /** A target is offered exactly when it is the left-hand side of one of the assignments. */
  lemma {:induction false} AssignmentTargetsMembers(assignments: seq<Assignment>, t: Symbol)
    ensures t in AssignmentTargets(assignments) <==> Assignment(Some(t)) in assignments
  {
    if assignments != [] {
      AssignmentTargetsMembers(assignments[1..], t);
      assert assignments == [assignments[0]] + assignments[1..];
    }
  }

  /** The loop variables of a `for` statement that are assignment targets, in order. */
  function LoopTargets(vars: seq<LoopVariable>): seq<Symbol>
  {
    if vars == [] then []
    else
      var first := vars[0];
      (if first.isTarget then [first.expr] else []) + LoopTargets(vars[1..])
  }

  /** Only loop variables that are targets are offered. */
  lemma {:induction false} LoopTargetsMembers(vars: seq<LoopVariable>, e: Symbol)
    ensures e in LoopTargets(vars) <==> LoopVariable(e, true) in vars
  {
    if vars != [] {
      LoopTargetsMembers(vars[1..], e);
      assert vars == [vars[0]] + vars[1..];
    }
  }

  /** The symbols imported by `loads`, statement by statement, each in its own order. */
  function LoadedSymbols(loads: seq<LoadStatement>): seq<Symbol>
  {
    if loads == [] then []
    else loads[0].importedSymbols + LoadedSymbols(loads[1..])
  }

  /**
   * Whether the walk is still in the file's top-level scope when it is at
   * `chain[i]`: it starts there, and leaves it for good when it passes a function.
   */
  predicate TopLevelAt(chain: seq<Node>, i: nat)
    requires i < |chain|
  {
    i == 0 || (TopLevelAt(chain, i - 1) && !chain[i].kind.FunctionStatement?)
  }

  /**
   * What the parent `chain[i + 1]` offers when the walk comes up from `chain[i]`.
   * `fileScope(file, anchor)` stands for the BUILD file's own search of its
   * top-level symbols: the symbols it offers, in order, given the anchor.
   */
  function Offered(chain: seq<Node>, i: nat, fileScope: (nat, Option<nat>) -> seq<Symbol>): seq<Symbol>
    requires i + 1 < |chain|
  {
    var parent := chain[i + 1];
    match parent.kind
    case BuildFile => fileScope(parent.id, if TopLevelAt(chain, i) then Some(chain[i].id) else None)
    case FunctionStatement(parameters) => parameters
    case ForStatement(loopVariables) => LoopTargets(loopVariables)
    case StatementList(assignments) => AssignmentTargets(assignments)
    case _ => []
  }

  /** Everything the walk offers from `chain[i]` up to the first file-system item, innermost scope first. */
  function ScopeCandidates(chain: seq<Node>, i: nat, fileScope: (nat, Option<nat>) -> seq<Symbol>): seq<Symbol>
    requires InFile(chain) && i < |chain|
    decreases |chain| - i
  {
    if IsFileSystemItem(chain[i]) then []
    else Offered(chain, i, fileScope) + ScopeCandidates(chain, i + 1, fileScope)
  }

  // ---------------------------------------------------------------------
  // Visitors
  // ---------------------------------------------------------------------

  /**
   * Offers the assignment targets among the children of a statement list,
   * in child order; returns `false` when the processor stopped the search.
   */
  method VisitChildAssignmentStatements(assignments: seq<Assignment>, accept: Symbol -> bool)
    returns (trace: seq<Symbol>, completed: bool)
    ensures Walk(trace, completed) == VisitAll(AssignmentTargets(assignments), accept)
  {
    trace := [];
    for j := 0 to |assignments|
      invariant VisitAll(AssignmentTargets(assignments), accept) ==
                Then(trace, VisitAll(AssignmentTargets(assignments[j..]), accept))
    {
      assert assignments[j..][1..] == assignments[j + 1..];
      var rest := AssignmentTargets(assignments[j + 1..]);
      var target := assignments[j].lhs;
      if target.Some? {
        VisitAllFirst(target.value, rest, accept);
        if !accept(target.value) {
          return trace + [target.value], false;
        }
        ThenThen(trace, [target.value], VisitAll(rest, accept));
        trace := trace + [target.value];
      } else {
        assert [] + rest == rest;
      }
    }
    completed := true;
  }

  /** The first assignment target, in child order, whose name is `name`; `None` (null) when there is none. */
  method SearchChildAssignmentStatements(assignments: seq<Assignment>, name: string) returns (r: Option<Symbol>)
    ensures var targets := AssignmentTargets(assignments);
      r.None? <==> forall k :: 0 <= k < |targets| ==> NameOf(targets[k]) != Some(name)
    ensures var targets := AssignmentTargets(assignments);
      r.Some? ==> exists k :: 0 <= k < |targets| && targets[k] == r.value && NameOf(r.value) == Some(name) &&
                             (forall j :: 0 <= j < k ==> NameOf(targets[j]) != Some(name))
  {
    var accept := t => NameOf(t) != Some(name);
    var resultHolder: Option<Symbol> := None;
    // The callback stores the target it stops at; only the last call can stop the search.
    var trace, _ := VisitChildAssignmentStatements(assignments, accept);
    if trace != [] && NameOf(trace[|trace| - 1]) == Some(name) {
      resultHolder := Some(trace[|trace| - 1]);
    }
    NamedIsFirstMatch(AssignmentTargets(assignments), name, accept);
    r := resultHolder;
  }

  /** A search whose callback rejects exactly the symbols named `name` stops at the first of them. */
  lemma NamedIsFirstMatch(candidates: seq<Symbol>, name: string, accept: Symbol -> bool)
    requires forall s :: accept(s) == (NameOf(s) != Some(name))
    ensures var trace := VisitAll(candidates, accept).trace;
      var r := if trace != [] && NameOf(trace[|trace| - 1]) == Some(name) then Some(trace[|trace| - 1]) else None;
      && (r.None? <==> forall k :: 0 <= k < |candidates| ==> NameOf(candidates[k]) != Some(name))
      && (r.Some? ==> exists k :: 0 <= k < |candidates| && candidates[k] == r.value && NameOf(r.value) == Some(name) &&
                                  (forall j :: 0 <= j < k ==> NameOf(candidates[j]) != Some(name)))
  {
    VisitAllFacts(candidates, accept);
    var w := VisitAll(candidates, accept);
    if !w.completed {
      var k := |w.trace| - 1;
      assert candidates[k] == w.trace[k];
      assert forall j :: 0 <= j < k ==> candidates[j] == w.trace[j];
    }
  }

  /**
   * Offers the symbols imported by the file's `load` statements, statement by
   * statement; returns `false` when the processor stopped the search.
   */
  method VisitLoadedSymbols(loads: seq<LoadStatement>, accept: Symbol -> bool)
    returns (trace: seq<Symbol>, completed: bool)
    ensures Walk(trace, completed) == VisitAll(LoadedSymbols(loads), accept)
  {
    trace := [];
    for i := 0 to |loads|
      invariant VisitAll(LoadedSymbols(loads), accept) == Then(trace, VisitAll(LoadedSymbols(loads[i..]), accept))
    {
      assert loads[i..][1..] == loads[i + 1..];
      var after := LoadedSymbols(loads[i + 1..]);
      var symbols := loads[i].importedSymbols;
      assert symbols[0..] == symbols;
      for j := 0 to |symbols|
        invariant VisitAll(LoadedSymbols(loads), accept) == Then(trace, VisitAll(symbols[j..] + after, accept))
      {
        assert symbols[j..] + after == [symbols[j]] + (symbols[j + 1..] + after);
        VisitAllFirst(symbols[j], symbols[j + 1..] + after, accept);
        if !accept(symbols[j]) {
          return trace + [symbols[j]], false;
        }
        ThenThen(trace, [symbols[j]], VisitAll(symbols[j + 1..] + after, accept));
        trace := trace + [symbols[j]];
      }
      assert symbols[|symbols|..] + after == after;
    }
    completed := true;
  }

  /** The loop over a function's parameters in the scope walk: offers every parameter, in order. */
  method VisitParameters(parameters: seq<Symbol>, accept: Symbol -> bool)
    returns (trace: seq<Symbol>, completed: bool)
    ensures Walk(trace, completed) == VisitAll(parameters, accept)
  {
    trace := [];
    assert parameters[0..] == parameters;
    for j := 0 to |parameters|
      invariant VisitAll(parameters, accept) == Then(trace, VisitAll(parameters[j..], accept))
    {
      assert parameters[j..] == [parameters[j]] + parameters[j + 1..];
      VisitAllFirst(parameters[j], parameters[j + 1..], accept);
      if !accept(parameters[j]) {
        return trace + [parameters[j]], false;
      }
      ThenThen(trace, [parameters[j]], VisitAll(parameters[j + 1..], accept));
      trace := trace + [parameters[j]];
    }
    completed := true;
  }

  /** The loop over a `for` statement's loop variables in the scope walk: offers only those that are targets. */
  method VisitLoopVariables(loopVariables: seq<LoopVariable>, accept: Symbol -> bool)
    returns (trace: seq<Symbol>, completed: bool)
    ensures Walk(trace, completed) == VisitAll(LoopTargets(loopVariables), accept)
  {
    trace := [];
    for j := 0 to |loopVariables|
      invariant VisitAll(LoopTargets(loopVariables), accept) ==
                Then(trace, VisitAll(LoopTargets(loopVariables[j..]), accept))
    {
      assert loopVariables[j..][1..] == loopVariables[j + 1..];
      var rest := LoopTargets(loopVariables[j + 1..]);
      var expr := loopVariables[j];
      if expr.isTarget {
        VisitAllFirst(expr.expr, rest, accept);
        if !accept(expr.expr) {
          return trace + [expr.expr], false;
        }
        ThenThen(trace, [expr.expr], VisitAll(rest, accept));
        trace := trace + [expr.expr];
      } else {
        assert [] + rest == rest;
      }
    }
    completed := true;
  }

  // ---------------------------------------------------------------------
  // The scope walk
  // ---------------------------------------------------------------------

  /** The walk is in the top-level scope exactly when no parent it has passed (`chain[1]` .. `chain[i]`) is a function. */
  lemma {:induction false} TopLevelUntilFunction(chain: seq<Node>, i: nat)
    requires i < |chain|
    ensures TopLevelAt(chain, i) <==> forall k :: 1 <= k <= i ==> !chain[k].kind.FunctionStatement?
  {
    if i > 0 {
      TopLevelUntilFunction(chain, i - 1);
    }
  }

  /** Whether the walk is at top level depends only on the ancestors passed so far. */
  lemma {:induction false} TopLevelOnPrefix(chain: seq<Node>, m: nat, i: nat)
    requires i <= m < |chain|
    ensures TopLevelAt(chain, i) == TopLevelAt(chain[..m + 1], i)
  {
    if i > 0 {
      TopLevelOnPrefix(chain, m, i - 1);
    }
  }

  /** What a parent offers depends only on the ancestors passed so far. */
  lemma OfferedOnPrefix(chain: seq<Node>, m: nat, i: nat, fileScope: (nat, Option<nat>) -> seq<Symbol>)
    requires i < m < |chain|
    ensures Offered(chain, i, fileScope) == Offered(chain[..m + 1], i, fileScope)
  {
    var prefix := chain[..m + 1];
    TopLevelOnPrefix(chain, m, i);
    assert prefix[i] == chain[i] && prefix[i + 1] == chain[i + 1];
  }

  /** Ancestors above the first file or directory are never looked at. */
  lemma {:induction false} CandidatesEndAtFileSystemItem(chain: seq<Node>, m: nat, i: nat,
                                                         fileScope: (nat, Option<nat>) -> seq<Symbol>)
    requires InFile(chain) && i <= m < |chain| && IsFileSystemItem(chain[m])
    ensures InFile(chain[..m + 1])
    ensures ScopeCandidates(chain, i, fileScope) == ScopeCandidates(chain[..m + 1], i, fileScope)
    decreases m - i
  {
    if !IsFileSystemItem(chain[i]) {
      OfferedOnPrefix(chain, m, i, fileScope);
      CandidatesEndAtFileSystemItem(chain, m, i + 1, fileScope);
    }
  }

  /**
   * The scope walk level by level: the parent's own search, and the outer
   * levels only when that search was not stopped.
   */
  function ScopeWalk(chain: seq<Node>, i: nat, accept: Symbol -> bool, fileScope: (nat, Option<nat>) -> seq<Symbol>): Walk
    requires InFile(chain) && i < |chain|
    decreases |chain| - i
  {
    if IsFileSystemItem(chain[i]) then Walk([], true)
    else
      var step := VisitAll(Offered(chain, i, fileScope), accept);
      if step.completed then Then(step.trace, ScopeWalk(chain, i + 1, accept, fileScope)) else step
  }

  /**
   * Stopping the walk at one level stops it at every level: walking level by
   * level is one first-rejection search over all the candidates in scope,
   * innermost first.
   */
  lemma {:induction false} ScopeWalkIsOneSearch(chain: seq<Node>, i: nat, accept: Symbol -> bool,
                                                fileScope: (nat, Option<nat>) -> seq<Symbol>)
    requires InFile(chain) && i < |chain|
    ensures ScopeWalk(chain, i, accept, fileScope) == VisitAll(ScopeCandidates(chain, i, fileScope), accept)
    decreases |chain| - i
  {
    if !IsFileSystemItem(chain[i]) {
      var offered := Offered(chain, i, fileScope);
      VisitAllAppend(offered, ScopeCandidates(chain, i + 1, fileScope), accept);
      VisitAllFacts(offered, accept);
      ScopeWalkIsOneSearch(chain, i + 1, accept, fileScope);
    }
  }

  /**
   * The body of the scope walk at one level: what the parent `chain[i + 1]`
   * offers when the walk comes up from `chain[i]`, and whether the processor
   * let the walk go on. A BUILD file is given `chain[i]` as anchor only while
   * the walk is still in the top-level scope.
   */
  method OfferParentScope(chain: seq<Node>, i: nat, topLevelScope: bool, accept: Symbol -> bool,
                          fileScope: (nat, Option<nat>) -> seq<Symbol>)
    returns (trace: seq<Symbol>, completed: bool)
    requires i + 1 < |chain| && topLevelScope == TopLevelAt(chain, i)
    ensures Walk(trace, completed) == VisitAll(Offered(chain, i, fileScope), accept)
  {
    var element, parent := chain[i], chain[i + 1];
    match parent.kind {
      case BuildFile =>
        var anchor := if topLevelScope then Some(element.id) else None;
        var step := VisitAll(fileScope(parent.id, anchor), accept);
        trace, completed := step.trace, step.completed;
      case FunctionStatement(parameters) =>
        trace, completed := VisitParameters(parameters, accept);
      case ForStatement(loopVariables) =>
        trace, completed := VisitLoopVariables(loopVariables, accept);
      case StatementList(assignments) =>
        trace, completed := VisitChildAssignmentStatements(assignments, accept);
      case _ =>
        trace, completed := [], true;
    }
  }

  /** After the level at `chain[i]`, the walk either ends (stopped) or goes on from `chain[i + 1]`. */
  lemma WalkAdvance(chain: seq<Node>, i: nat, accept: Symbol -> bool, fileScope: (nat, Option<nat>) -> seq<Symbol>,
                    trace: seq<Symbol>, stepTrace: seq<Symbol>, completed: bool)
    requires InFile(chain) && i < |chain| && !IsFileSystemItem(chain[i])
    requires ScopeWalk(chain, 0, accept, fileScope).trace == trace + ScopeWalk(chain, i, accept, fileScope).trace
    requires Walk(stepTrace, completed) == VisitAll(Offered(chain, i, fileScope), accept)
    ensures i + 1 < |chain|
    ensures completed ==>
      ScopeWalk(chain, 0, accept, fileScope).trace == (trace + stepTrace) + ScopeWalk(chain, i + 1, accept, fileScope).trace
    ensures !completed ==> ScopeWalk(chain, 0, accept, fileScope).trace == trace + stepTrace
  {
    var step := VisitAll(Offered(chain, i, fileScope), accept);
    var rest := ScopeWalk(chain, i + 1, accept, fileScope);
    assert ScopeWalk(chain, i, accept, fileScope) == if step.completed then Then(step.trace, rest) else step;
    if completed {
      assert trace + (stepTrace + rest.trace) == (trace + stepTrace) + rest.trace;
    }
  }

  /**
   * Walks from `chain[0]` up its ancestors to the first file or directory,
   * offering at each parent the symbols it declares: the file's top-level
   * symbols, a function's parameters, a `for` statement's target loop
   * variables, the assignment targets of a statement list. Stops as soon as
   * the processor returns `false`.
   */
  method SearchInScope(chain: seq<Node>, accept: Symbol -> bool, fileScope: (nat, Option<nat>) -> seq<Symbol>)
    returns (trace: seq<Symbol>)
    requires InFile(chain)
    ensures trace == ScopeWalk(chain, 0, accept, fileScope).trace
  {
    var topLevelScope := true;
    var i := 0;  // the walk is at `element == chain[i]`
    trace := [];
    while !IsFileSystemItem(chain[i])
      invariant 0 <= i < |chain|
      invariant topLevelScope == TopLevelAt(chain, i)
      invariant ScopeWalk(chain, 0, accept, fileScope).trace == trace + ScopeWalk(chain, i, accept, fileScope).trace
      decreases |chain| - i
    {
      var stepTrace, completed := OfferParentScope(chain, i, topLevelScope, accept, fileScope);
      WalkAdvance(chain, i, accept, fileScope, trace, stepTrace, completed);
      trace := trace + stepTrace;
      if !completed {
        return;
      }
      if chain[i + 1].kind.FunctionStatement? {
        topLevelScope := false;
      }
      i := i + 1;
    }
  }

  // ---------------------------------------------------------------------
  // Searches built on the walk
  // ---------------------------------------------------------------------

  /**
   * What the processor of `FindInScope` stores when it is offered `s`: `s`
   * itself when it is a named element called `name`, the named element that
   * a string literal with contents `name` refers to, and nothing otherwise;
   * never anything for the element being resolved. It stops the walk exactly
   * when it stores something.
   */
  function Stored(s: Symbol, name: string, original: nat): Option<Symbol>
  {
    if s.id == original then None
    else if s.Named? && s.name == Some(name) then Some(s)
    else if s.StringLiteral? && s.contents == name && s.referent.Some? && s.referent.value.Named? then s.referent
    else None
  }

  /**
   * A search whose processor stops exactly when it stores something ends
   * with the first candidate that stores something, or runs through when
   * none does.
   */
  lemma StoredIsFirstMatch(candidates: seq<Symbol>, name: string, original: nat, accept: Symbol -> bool)
    requires forall s :: accept(s) == Stored(s, name, original).None?
    ensures var trace := VisitAll(candidates, accept).trace;
      var r := if trace != [] && Stored(trace[|trace| - 1], name, original).Some?
               then Stored(trace[|trace| - 1], name, original) else None;
      && (r.None? <==> forall k :: 0 <= k < |candidates| ==> Stored(candidates[k], name, original).None?)
      && (r.Some? ==> exists k :: 0 <= k < |candidates| && candidates[k].id != original &&
                                  Stored(candidates[k], name, original) == r &&
                                  (forall j :: 0 <= j < k ==> Stored(candidates[j], name, original).None?))
  {
    VisitAllFacts(candidates, accept);
    var w := VisitAll(candidates, accept);
    if !w.completed {
      var k := |w.trace| - 1;
      assert candidates[k] == w.trace[k];
      assert forall j :: 0 <= j < k ==> candidates[j] == w.trace[j];
    }
  }

  /**
   * Resolves `name` from the element `chain[0]`: the first candidate in scope,
   * innermost first, for which the processor stores something, skipping the
   * element itself; `None` (null) when no candidate matches.
   */
  method FindInScope(chain: seq<Node>, name: string, fileScope: (nat, Option<nat>) -> seq<Symbol>)
    returns (r: Option<Symbol>)
    requires InFile(chain)
    ensures var candidates := ScopeCandidates(chain, 0, fileScope);
      r.None? <==> forall k :: 0 <= k < |candidates| ==> Stored(candidates[k], name, chain[0].id).None?
    ensures var candidates := ScopeCandidates(chain, 0, fileScope);
      r.Some? ==> exists k :: 0 <= k < |candidates| && candidates[k].id != chain[0].id &&
                              Stored(candidates[k], name, chain[0].id) == r &&
                              (forall j :: 0 <= j < k ==> Stored(candidates[j], name, chain[0].id).None?)
    ensures r.Some? ==> r.value.Named?
  {
    var original := chain[0].id;
    var accept := s => Stored(s, name, original).None?;
    var resultHolder: Option<Symbol> := None;
    var trace := SearchInScope(chain, accept, fileScope);
    // The processor stores a result only in the call that stops the walk, which is the last one.
    if trace != [] && Stored(trace[|trace| - 1], name, original).Some? {
      resultHolder := Stored(trace[|trace| - 1], name, original);
    }
    ScopeWalkIsOneSearch(chain, 0, accept, fileScope);
    StoredIsFirstMatch(ScopeCandidates(chain, 0, fileScope), name, original, accept);
    r := resultHolder;
  }

  // ---------------------------------------------------------------------
  // Searching for files
  // ---------------------------------------------------------------------

  /** `providers[k]` is the first provider whose answer for `e` is not null. */
  ghost predicate FirstAnswerAt(providers: seq<PsiTarget -> Option<nat>>, e: PsiTarget, k: nat)
  {
    k < |providers| && providers[k](e).Some? && forall j :: 0 <= j < k ==> providers[j](e).None?
  }

  /**
   * The file `e` stands for: `e` itself when it is a file, otherwise the
   * first non-null answer of the registered providers (each gives a file's
   * id or null), otherwise `None`.
   */
  method AsFileSearch(e: PsiTarget, providers: seq<PsiTarget -> Option<nat>>) returns (r: Option<nat>)
    ensures e.File? ==> r == Some(e.id)
    ensures !e.File? ==> (r.None? <==> forall k :: 0 <= k < |providers| ==> providers[k](e).None?)
    ensures !e.File? && r.Some? ==> exists k: nat :: FirstAnswerAt(providers, e, k) && r == providers[k](e)
  {
    if e.File? {
      return Some(e.id);
    }
    for k := 0 to |providers|
      invariant forall j :: 0 <= j < k ==> providers[j](e).None?
    {
      var file := providers[k](e);
      if file.Some? {
        assert FirstAnswerAt(providers, e, k);
        return file;
      }
    }
    return None;
  }

  /** The file or directory `e` stands for: `e` itself when it is one, otherwise what `AsFileSearch` finds. */
  method AsFileSystemItemSearch(e: PsiTarget, providers: seq<PsiTarget -> Option<nat>>) returns (r: Option<PsiTarget>)
    ensures e.File? || e.Directory? ==> r == Some(e)
    ensures e.OtherTarget? ==> (r.None? <==> forall k :: 0 <= k < |providers| ==> providers[k](e).None?)
    ensures e.OtherTarget? && r.Some? ==> exists k: nat :: FirstAnswerAt(providers, e, k) && r == Some(File(providers[k](e).value))
  {
    if e.File? || e.Directory? {
      return Some(e);
    }
    var file := AsFileSearch(e, providers);
    r := if file.Some? then Some(File(file.value)) else None;
  }
}
