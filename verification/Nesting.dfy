// The nesting of blocks in a C++ file, as _NestingState in bin/cpplint.py tracks it, on values.
//
// A line is given by what the regular expressions of the source find in it.

module Nesting {
  import opened Wrappers

  // ---------- lines ----------

  // #if, #ifdef and #ifndef; #else and #elif; #endif.
  datatype Directive = NoDirective | If | Else | Endif

  // The first brace, semicolon or closing parenthesis of what is left of a line; `asm` says whether what is
  // left starts an assembly block.
  datatype Token = OpenBrace(asm: bool) | Semicolon | CloseParen | CloseBrace

  // A line, or what is left of it after a class head: an access specifier and the tokens.
  datatype Tail = Tail(access: Option<string>, tokens: seq<Token>)

  datatype NamespaceHead = NamespaceHead(name: string, linenum: nat, brace: bool)

  datatype ClassHead = ClassHead(name: string, isStruct: bool, linenum: nat, indent: nat, lastLine: nat, tail: Tail)

  datatype Line = Line(
    directive: Directive,
    depthChange: int,                 // opening minus closing parentheses
    startsAsm: bool,
    namespaces: seq<NamespaceHead>,   // at the beginning of the line
    classHead: Option<ClassHead>,     // after these
    bareColon: bool,
    tail: Tail)                       // what is left if the class head is not consumed

  // ---------- blocks ----------

  datatype Kind =
    | Plain
    | Class(name: string, isStruct: bool, linenum: nat, indent: nat, lastLine: nat)
    | Namespace(name: string, linenum: nat)

  datatype Asm = NoAsm | InsideAsm | EndAsm | BlockAsm

  datatype BlockValue = BlockValue(kind: Kind, seenOpenBrace: bool, openParentheses: int, inlineAsm: Asm, isDerived: bool, access: string)

  type Stack = seq<BlockValue>

  function NewBlock(kind: Kind, seenOpenBrace: bool): BlockValue {
    BlockValue(kind, seenOpenBrace, 0, NoAsm, false, if kind.Class? then (if kind.isStruct then "public" else "private") else "")
  }

  function Top(stack: Stack): BlockValue
    requires stack != []
  {
    stack[|stack| - 1]
  }

  function Pop(stack: Stack): Stack
    requires stack != []
  {
    stack[..|stack| - 1]
  }

  function WithTop(stack: Stack, block: BlockValue): Stack
    requires stack != []
  {
    stack[|stack| - 1 := block]
  }

  predicate SeenOpenBrace(stack: Stack) {
    stack == [] || Top(stack).seenOpenBrace
  }

  // ---------- what the text of a line does to the stack ----------

  function CountParentheses(stack: Stack, line: Line): Stack {
    if stack == [] then stack
    else
      var top := Top(stack);
      var open := top.openParentheses + line.depthChange;
      var asm :=
        if top.inlineAsm == NoAsm || top.inlineAsm == EndAsm then
          if line.depthChange != 0 && open == 1 && line.startsAsm then InsideAsm else NoAsm
        else if top.inlineAsm == InsideAsm && open == 0 then EndAsm
        else top.inlineAsm;
      WithTop(stack, top.(openParentheses := open, inlineAsm := asm))
  }

  function NamespaceBlock(head: NamespaceHead): BlockValue {
    NewBlock(Namespace(head.name, head.linenum), head.brace)
  }

  function PushNamespaces(stack: Stack, heads: seq<NamespaceHead>): Stack {
    if heads == [] then stack else PushNamespaces(stack, heads[..|heads| - 1]) + [NamespaceBlock(heads[|heads| - 1])]
  }

  predicate ConsumesClass(stack: Stack, line: Line) {
    line.classHead.Some? && (stack == [] || Top(stack).openParentheses == 0)
  }

  function ClassBlock(head: ClassHead): BlockValue {
    NewBlock(Class(head.name, head.isStruct, head.linenum, head.indent, head.lastLine), false)
  }

  function PushClass(stack: Stack, line: Line): Stack {
    if ConsumesClass(stack, line) then stack + [ClassBlock(line.classHead.value)] else stack
  }

  function TailOf(stack: Stack, line: Line): Tail {
    if ConsumesClass(stack, line) then line.classHead.value.tail else line.tail
  }

  function CheckBegin(stack: Stack, bareColon: bool): Stack {
    if !SeenOpenBrace(stack) && Top(stack).kind.Class? && bareColon then WithTop(stack, Top(stack).(isDerived := true)) else stack
  }

  function SetAccess(stack: Stack, access: Option<string>): Stack {
    if stack != [] && Top(stack).kind.Class? && access.Some? then WithTop(stack, Top(stack).(access := access.value)) else stack
  }

  function Consume(stack: Stack, token: Token): Stack {
    match token
    case OpenBrace(asm) =>
      if !SeenOpenBrace(stack) then WithTop(stack, Top(stack).(seenOpenBrace := true))
      else stack + [NewBlock(Plain, true).(inlineAsm := if asm then BlockAsm else NoAsm)]
    case Semicolon => if !SeenOpenBrace(stack) then Pop(stack) else stack
    case CloseParen => if !SeenOpenBrace(stack) then Pop(stack) else stack
    case CloseBrace => if stack != [] then Pop(stack) else stack
  }

  function ConsumeAll(stack: Stack, tokens: seq<Token>): Stack {
    if tokens == [] then stack else Consume(ConsumeAll(stack, tokens[..|tokens| - 1]), tokens[|tokens| - 1])
  }

  // Everything that Update does after the preprocessor stack is up to date.
  function Residual(stack: Stack, line: Line): Stack {
    var s := PushNamespaces(CountParentheses(stack, line), line.namespaces);
    var t := CheckBegin(PushClass(s, line), line.bareColon);
    var tail := TailOf(s, line);
    ConsumeAll(SetAccess(t, tail.access), tail.tokens)
  }

  // ---------- preprocessor directives ----------

  datatype Preprocessor = Preprocessor(stackBeforeIf: Stack, stackBeforeElse: Stack, seenElse: bool)

  datatype State = State(stack: Stack, pp: seq<Preprocessor>)

  function UpdatePreprocessor(s: State, directive: Directive): State {
    var n := |s.pp| - 1;
    match directive
    case NoDirective => s
    case If => s.(pp := s.pp + [Preprocessor(s.stack, [], false)])
    case Else =>
      if s.pp == [] then s
      else
        var info := if s.pp[n].seenElse then s.pp[n] else s.pp[n].(seenElse := true, stackBeforeElse := s.stack);
        State(info.stackBeforeIf, s.pp[n := info])
    case Endif =>
      if s.pp == [] then s
      else State(if s.pp[n].seenElse then s.pp[n].stackBeforeElse else s.stack, s.pp[..n])
  }

  function Update(s: State, line: Line): State {
    var t := UpdatePreprocessor(s, line.directive);
    t.(stack := Residual(t.stack, line))
  }

  function Run(s: State, lines: seq<Line>): State
    decreases lines
  {
    if lines == [] then s else Run(Update(s, lines[0]), lines[1..])
  }

  // The lines as ordinary text: directives are ignored.
  function RunText(stack: Stack, lines: seq<Line>): Stack
    decreases lines
  {
    if lines == [] then stack else RunText(Residual(stack, lines[0]), lines[1..])
  }
}
