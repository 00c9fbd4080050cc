/** From the text of a pattern to a validated program, and to its matches. */
module Compilation {
  import opened Basics
  import opened Characters
  import opened Prepass
  import opened Pattern
  import opened Matcher
  import opened Machine
  import opened Code
  import opened CompiledPrograms
  import opened Validation
  import opened GeneratedPrograms
  import opened RegExp
  import opened Trees
  import opened ParserObject
  import opened PrepassAgrees
  import opened Printing
  import S = Syntax
  import CodeBuilder

  /** The flags that reach the compiler or the search; `v` implies what `u` implies. */
  datatype Flags = Flags(modifiers: Modifiers, unicode: bool, sets: bool, sticky: bool)

  /** What the parser starts from: the text, the flags, and the counts of the prepass. */
  function Start(units: seq<Unit>, flags: Flags, tables: S.Tables): S.Context {
    var summary := Scan(units, 0, false, Summary(1, false));
    S.Context(units, flags.unicode || flags.sets, flags.sets, summary.captures, summary.named, tables)
  }

  function Folding(x: S.Context): Canonicalize {
    (c: nat) => if c <= MAX_CODE_POINT then S.Fold(x, c) else c
  }

  datatype Compiled = Compiled(program: seq<Instruction>, captures: nat, registers: nat)

  datatype CompileFailure = SyntaxError | RegisterLimit | Internal

  /**
   The compiler on any text. What it returns is valid, and is the code of the tree of the text. It fails exactly on
   a syntax error, on more than 255 registers, or on an emitted forward reference out of range.
   */
  method CompileUnits(units: seq<Unit>, flags: Flags, tables: S.Tables) returns (r: Result<Compiled, CompileFailure>)
    ensures r == Err(SyntaxError) <==> S.Parse(Start(units, flags, tables), flags.modifiers).None?
    ensures var x := Start(units, flags, tables);
            S.Parse(x, flags.modifiers).Some? ==>
              var s, tree := S.Parse(x, flags.modifiers).value, Tree(x, flags.modifiers);
              && (r == Err(RegisterLimit) <==> AlternativesRegisters(tree.alternatives) > CodeBuilder.MAX_REGISTERS)
              && (r == Err(Internal) <==>
                    AlternativesRegisters(tree.alternatives) <= CodeBuilder.MAX_REGISTERS && !InRange(x, s.forward, s.captures))
              && (r.Ok? ==>
                    && r.value.program == Program(Folding(x), flags.modifiers, tree)
                    && r.value.captures == s.captures
                    && r.value.registers == AlternativesRegisters(tree.alternatives)
                    && ValidProgram(r.value.program, r.value.captures, r.value.registers))
  {
    hide Scan;
    hide S.Disjunction;
    hide DisjunctionTree;
    hide ValidPattern;
    hide ArrangedPattern;
    hide InRange;
    hide Program;
    hide ValidProgram;
    hide AlternativesRegisters;
    ghost var x := Start(units, flags, tables);
    var summary, expression := ParseUnits(units, flags.unicode || flags.sets, flags.sets, flags.modifiers, tables);
    if expression.None? {
      return Err(SyntaxError);
    }
    var canonicalize := Folding(Start(units, flags, tables));
    var compiled := CodeBuilder.Compile(canonicalize, flags.modifiers, expression.value);
    if compiled.Err? {
      return Err(RegisterLimit);
    }
    var (program, registers) := compiled.value;
    ValidIffInRange(canonicalize, flags.modifiers, expression.value, summary.captures, registers);
    var validated := ValidateProgram(program, summary.captures, registers);
    if validated.Err? {
      return Err(Internal);
    }
    return Ok(Compiled(program, summary.captures, registers));
  }

  // ---- Patterns that are ready to match ----

  ghost function Parsed(units: seq<Unit>, flags: Flags, tables: S.Tables): Regex
    requires S.Parse(Start(units, flags, tables), flags.modifiers).Some?
  {
    var x := Start(units, flags, tables);
    Regex(Tree(x, flags.modifiers), S.Parse(x, flags.modifiers).value.captures, flags.modifiers, flags.sticky)
  }

  /** Without set notation no class has strings, so only forward references can keep a pattern from being ready. */
  lemma ReadyWithoutSets(units: seq<Unit>, flags: Flags, tables: S.Tables)
    requires S.Parse(Start(units, flags, tables), flags.modifiers).Some? && !flags.sets
    ensures var x := Start(units, flags, tables);
            var s := S.Parse(x, flags.modifiers).value;
            ValidRegex(Parsed(units, flags, tables)) <==> InRange(x, s.forward, s.captures)
  {
    hide Scan;
    hide S.Disjunction;
    hide DisjunctionTree;
    hide InRange;
    var x := Start(units, flags, tables);
    AcceptedIsValid(x, flags.modifiers);
    DisjunctionHasNoStrings(x, flags.modifiers, S.START, false, 0, false);
  }

  datatype TextFailure = CompileFailed(cause: CompileFailure) | ExecFailed(error: ExecError)

  /**
   Text, flags, input and start position: a syntax error exactly for the texts that the grammar rejects, an internal
   error exactly for emitted forward references out of range, and otherwise the first match of the reference
   matcher on the tree of the text, or none.
   */
  method ExecuteText(units: seq<Unit>, flags: Flags, tables: S.Tables, input: seq<Unit>, start: nat)
    returns (result: Result<Option<Captures>, TextFailure>)
    requires var x := Start(units, flags, tables);
             S.Parse(x, flags.modifiers).Some? ==> NoBackwardStringsIn(Tree(x, flags.modifiers).alternatives, false)
    ensures result == Err(CompileFailed(SyntaxError)) <==> S.Parse(Start(units, flags, tables), flags.modifiers).None?
    ensures var x := Start(units, flags, tables);
            S.Parse(x, flags.modifiers).Some? ==>
              var s, r, env := S.Parse(x, flags.modifiers).value, Parsed(units, flags, tables), Env(input, x.unicode, Folding(x));
              if AlternativesRegisters(r.expression.alternatives) > CodeBuilder.MAX_REGISTERS then
                result == Err(CompileFailed(RegisterLimit))
              else if !InRange(x, s.forward, s.captures) then result == Err(CompileFailed(Internal))
              else if start > |input| then result == Err(ExecFailed(StartOutOfBounds(start, |input|)))
              else
                && result.Ok?
                && (result.value.None? ==> NoMatch(env, r, start))
                && (result.value.Some? ==> exists position :: FirstMatch(env, r, start, position, result.value.value))
  {
    hide Scan;
    hide S.Disjunction;
    hide DisjunctionTree;
    hide ValidPattern;
    hide InRange;
    hide Program;
    hide ValidProgram;
    hide AlternativesRegisters;
    hide NoMatch;
    hide FirstMatch;
    hide NoBackwardStringsIn;
    ghost var x := Start(units, flags, tables);
    var compiled := CompileUnits(units, flags, tables);
    if compiled.Err? {
      assert compiled.error.SyntaxError? || compiled.error.RegisterLimit? || compiled.error.Internal?;
      return Err(CompileFailed(compiled.error));
    }
    AcceptedIsValid(x, flags.modifiers);
    var Compiled(program, captures, registers) := compiled.value;
    var env := Env(input, flags.unicode || flags.sets, Folding(Start(units, flags, tables)));
    var executed := ExecuteUnits(Engine(env, program), captures, registers, flags.sticky, start, Parsed(units, flags, tables));
    if executed.Err? {
      return Err(ExecFailed(executed.error));
    }
    return Ok(executed.value);
  }

  // ---- Every tree with a text is the tree of that text ----

  /** The context in which the text of a tree is read in Unicode mode. */
  function Printed(expression: Expression, tables: S.Tables): S.Context {
    S.Context(AlternativesText(expression.alternatives), true, false, 1 + AlternativesGroups(expression.alternatives), false, tables)
  }

  /** Printing a tree and parsing the text, prepass included, gives back the tree. */
  lemma PrintedIsParsed(expression: Expression, flags: Flags, tables: S.Tables)
    requires flags.unicode && !flags.sets && expression.alternatives != []
    requires PrintableAlternatives(Printed(expression, tables), flags.modifiers, expression.alternatives, 1, 0)
    ensures var x := Start(AlternativesText(expression.alternatives), flags, tables);
            && x == Printed(expression, tables)
            && S.Parse(x, flags.modifiers).Some? && Tree(x, flags.modifiers) == expression
  {
    hide Scan;
    hide S.Disjunction;
    hide DisjunctionTree;
    hide AlternativesText;
    hide PrintableAlternatives;
    var x := Printed(expression, tables);
    PrintedParses(x, flags.modifiers, expression);
    PrepassIsExact(x, flags.modifiers);
  }
}
