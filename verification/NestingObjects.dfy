// _NestingState in bin/cpplint.py as it is programmed: a stack of block objects that are changed in place,
// and saved stacks of copies of them.

module NestingObjects {
  import opened Nesting
  import opened NestingLaws
  import opened Wrappers

  class Block {
    const kind: Kind
    var seenOpenBrace: bool
    var openParentheses: int
    var inlineAsm: Asm
    var isDerived: bool
    var access: string

    constructor (kind: Kind, seenOpenBrace: bool)
      ensures Value() == NewBlock(kind, seenOpenBrace)
    {
      this.kind := kind;
      this.seenOpenBrace := seenOpenBrace;
      openParentheses, inlineAsm, isDerived := 0, NoAsm, false;
      access := if kind.Class? then (if kind.isStruct then "public" else "private") else "";
    }

    constructor Copy(b: Block)
      ensures Value() == b.Value()
    {
      kind := b.kind;
      seenOpenBrace, openParentheses, inlineAsm, isDerived, access := b.seenOpenBrace, b.openParentheses, b.inlineAsm, b.isDerived, b.access;
    }

    function Value(): BlockValue
      reads this
    {
      BlockValue(kind, seenOpenBrace, openParentheses, inlineAsm, isDerived, access)
    }
  }

  function Values(blocks: seq<Block>): Stack
    reads blocks
  {
    seq(|blocks|, i requires 0 <= i < |blocks| reads blocks => blocks[i].Value())
  }

  ghost predicate Distinct(blocks: seq<Block>) {
    forall i, j :: 0 <= i < j < |blocks| ==> blocks[i] != blocks[j]
  }

  ghost predicate Apart(a: seq<Block>, b: seq<Block>) {
    forall x :: x in a ==> x !in b
  }

  // Each block belongs to one stack only: -1 stands for the live one, 2 * i and 2 * i + 1 for the stacks saved
  // in checkpoint i.
  ghost predicate AtHome(home: map<Block, int>, blocks: seq<Block>, place: int) {
    Distinct(blocks) && forall x :: x in blocks ==> x in home && home[x] == place
  }

  // copy.deepcopy of a stack: the copies are new objects, so nothing is shared with any older stack.
  method DeepCopy(blocks: seq<Block>) returns (copy: seq<Block>)
    ensures Values(copy) == Values(blocks)
    ensures Distinct(copy) && forall x :: x in copy ==> fresh(x)
  {
    copy := [];
    for i := 0 to |blocks|
      invariant |copy| == i && forall k :: 0 <= k < i ==> copy[k].Value() == blocks[k].Value()
      invariant Distinct(copy) && forall k :: 0 <= k < i ==> fresh(copy[k])
    {
      var b := new Block.Copy(blocks[i]);
      copy := copy + [b];
    }
  }

  class PreprocessorInfo {
    const stackBeforeIf: seq<Block>
    ghost const level: nat  // how many conditionals are open around this one
    var stackBeforeElse: seq<Block>
    var seenElse: bool

    constructor (stackBeforeIf: seq<Block>, ghost level: nat)
      ensures this.stackBeforeIf == stackBeforeIf && stackBeforeElse == [] && !seenElse && this.level == level
    {
      this.stackBeforeIf := stackBeforeIf;
      this.level := level;
      stackBeforeElse := [];
      seenElse := false;
    }
  }

  // Checkpoint i stands for p, and its blocks are its own.
  ghost predicate Checkpoint(home: map<Block, int>, info: PreprocessorInfo, i: nat, p: Preprocessor)
    reads info, info.stackBeforeIf, info.stackBeforeElse
  {
    && AtHome(home, info.stackBeforeIf, 2 * i)
    && AtHome(home, info.stackBeforeElse, 2 * i + 1)
    && Values(info.stackBeforeIf) == p.stackBeforeIf
    && Values(info.stackBeforeElse) == p.stackBeforeElse
    && info.seenElse == p.seenElse
  }

  // Checkpoints are unaffected by what happens to blocks of other stacks.
  twostate lemma CheckpointsKept(new home: map<Block, int>, new after: map<Block, int>, new infos: seq<PreprocessorInfo>, new pp: seq<Preprocessor>)
    requires |infos| <= |pp| && old(allocated(home)) && old(allocated(infos))
    requires forall i :: 0 <= i < |infos| ==> old(Checkpoint(home, infos[i], i, pp[i]))
    requires forall i :: 0 <= i < |infos| ==> infos[i].stackBeforeElse == old(infos[i].stackBeforeElse) && infos[i].seenElse == old(infos[i].seenElse)
    requires forall x :: x in home && 0 <= home[x] < 2 * |infos| ==>
                           x in after && after[x] == home[x] && old(allocated(x)) && x.Value() == old(x.Value())
    ensures forall i :: 0 <= i < |infos| ==> Checkpoint(after, infos[i], i, pp[i])
  {
    forall i | 0 <= i < |infos|
      ensures Checkpoint(after, infos[i], i, pp[i])
    {
      assert old(Checkpoint(home, infos[i], i, pp[i]));
      assert forall x :: x in infos[i].stackBeforeIf ==> x in home && home[x] == 2 * i;
      assert forall x :: x in infos[i].stackBeforeElse ==> x in home && home[x] == 2 * i + 1;
    }
  }

  // New blocks move in.
  ghost function Rehome(home: map<Block, int>, blocks: seq<Block>, place: int): (after: map<Block, int>)
    ensures Distinct(blocks) ==> AtHome(after, blocks, place)
    ensures forall x :: x in after ==> x in home || x in blocks
    ensures forall x :: x in blocks ==> x in after && after[x] == place
    ensures forall x :: x in home ==> x in after && (x !in blocks ==> after[x] == home[x])
  {
    home + map x | x in blocks :: place
  }

  lemma HomeKept(home: map<Block, int>, after: map<Block, int>, blocks: seq<Block>, place: int)
    requires AtHome(home, blocks, place)
    requires forall x :: x in home && home[x] == place ==> x in after && after[x] == place
    ensures AtHome(after, blocks, place)
  {
  }

  lemma CheckpointFacts(home: map<Block, int>, info: PreprocessorInfo, i: nat, p: Preprocessor)
    requires Checkpoint(home, info, i, p)
    ensures AtHome(home, info.stackBeforeIf, 2 * i) && AtHome(home, info.stackBeforeElse, 2 * i + 1)
    ensures Distinct(info.stackBeforeElse)
    ensures forall x :: x in info.stackBeforeElse ==> x in home && home[x] == 2 * i + 1
    ensures Values(info.stackBeforeIf) == p.stackBeforeIf && Values(info.stackBeforeElse) == p.stackBeforeElse && info.seenElse == p.seenElse
  {
  }

  lemma MakeCheckpoint(home: map<Block, int>, info: PreprocessorInfo, i: nat, p: Preprocessor)
    requires AtHome(home, info.stackBeforeIf, 2 * i) && AtHome(home, info.stackBeforeElse, 2 * i + 1)
    requires Values(info.stackBeforeIf) == p.stackBeforeIf && Values(info.stackBeforeElse) == p.stackBeforeElse && info.seenElse == p.seenElse
    ensures Checkpoint(home, info, i, p)
  {
  }

  lemma NewCheckpoint(home: map<Block, int>, info: PreprocessorInfo, i: nat, p: Preprocessor)
    requires AtHome(home, info.stackBeforeIf, 2 * i) && info.stackBeforeElse == [] && !info.seenElse
    requires p == Preprocessor(Values(info.stackBeforeIf), [], false)
    ensures Checkpoint(home, info, i, p)
  {
  }

  class NestingState {
    var stack: seq<Block>
    var ppStack: seq<PreprocessorInfo>
    ghost var model: State       // what the objects stand for
    ghost var repr: set<object>  // the objects
    ghost var home: map<Block, int>

    constructor ()
      ensures Valid() && fresh(repr) && model == State([], [])
    {
      stack := [];
      ppStack := [];
      model := State([], []);
      repr := {this};
      home := map[];
    }

    ghost predicate Owned()
      reads this, repr
    {
      && this in repr
      && (forall x :: x in home ==> x in repr)
      && (forall x :: x in stack ==> x in repr)
      && (forall i :: 0 <= i < |ppStack| ==> ppStack[i] in repr && InRepr(ppStack[i]) && ppStack[i].level == i)
    }

    ghost predicate InRepr(info: PreprocessorInfo)
      reads this, info
    {
      (forall x :: x in info.stackBeforeIf ==> x in repr) && (forall x :: x in info.stackBeforeElse ==> x in repr)
    }

    ghost predicate Valid()
      reads this, repr
    {
      && Owned()
      && AtHome(home, stack, -1) && Values(stack) == model.stack
      && |ppStack| == |model.pp|
      && forall i :: 0 <= i < |ppStack| ==> Checkpoint(home, ppStack[i], i, model.pp[i])
    }

    // The copy discipline: no block object is in two stacks, live or saved, or twice in one of them.
    lemma NothingIsShared()
      requires Valid()
      ensures Distinct(stack)
      ensures forall i :: 0 <= i < |ppStack| ==>
                            && Distinct(ppStack[i].stackBeforeIf) && Distinct(ppStack[i].stackBeforeElse)
                            && Apart(ppStack[i].stackBeforeIf, ppStack[i].stackBeforeElse)
                            && Apart(stack, ppStack[i].stackBeforeIf) && Apart(stack, ppStack[i].stackBeforeElse)
      ensures forall i, j :: 0 <= i < j < |ppStack| ==>
                               && Apart(ppStack[i].stackBeforeIf, ppStack[j].stackBeforeIf)
                               && Apart(ppStack[i].stackBeforeIf, ppStack[j].stackBeforeElse)
                               && Apart(ppStack[i].stackBeforeElse, ppStack[j].stackBeforeIf)
                               && Apart(ppStack[i].stackBeforeElse, ppStack[j].stackBeforeElse)
    {
    }

    predicate HasSeenOpenBrace()
      reads this, stack
      ensures HasSeenOpenBrace() == SeenOpenBrace(Values(stack))
    {
      stack == [] || stack[|stack| - 1].seenOpenBrace
    }

    // The live stack consists of earlier live blocks and new ones.
    twostate predicate StackGrown()
      reads this
    {
      Distinct(stack) && forall i :: 0 <= i < |stack| ==> stack[i] in old(stack) || fresh(stack[i])
    }

    // ---------- the text of a line ----------

    method CountParens(line: Line)
      requires Distinct(stack)
      modifies stack
      ensures Values(stack) == CountParentheses(old(Values(stack)), line)
    {
      if stack != [] {
        var inner := stack[|stack| - 1];
        inner.openParentheses := inner.openParentheses + line.depthChange;
        if inner.inlineAsm == NoAsm || inner.inlineAsm == EndAsm {
          if line.depthChange != 0 && inner.openParentheses == 1 && line.startsAsm {
            inner.inlineAsm := InsideAsm;
          } else {
            inner.inlineAsm := NoAsm;
          }
        } else if inner.inlineAsm == InsideAsm && inner.openParentheses == 0 {
          inner.inlineAsm := EndAsm;
        }
      }
    }

    method PushNamespaceBlocks(heads: seq<NamespaceHead>)
      requires Distinct(stack)
      modifies this`stack
      ensures Values(stack) == PushNamespaces(old(Values(stack)), heads)
      ensures StackGrown()
    {
      ghost var before := Values(stack);
      for i := 0 to |heads|
        invariant Values(stack) == PushNamespaces(before, heads[..i])
        invariant StackGrown()
      {
        var head := heads[i];
        var b := new Block(Namespace(head.name, head.linenum), false);
        stack := stack + [b];
        if head.brace {
          b.seenOpenBrace := true;
        }
        assert heads[..i + 1][..i] == heads[..i];
      }
      assert heads[..|heads|] == heads;
    }

    method PushClassBlock(line: Line) returns (tail: Tail)
      requires Distinct(stack)
      modifies this`stack
      ensures Values(stack) == PushClass(old(Values(stack)), line) && tail == TailOf(old(Values(stack)), line)
      ensures StackGrown()
    {
      tail := line.tail;
      if line.classHead.Some? && (stack == [] || stack[|stack| - 1].openParentheses == 0) {
        var head := line.classHead.value;
        var b := new Block(Class(head.name, head.isStruct, head.linenum, head.indent, head.lastLine), false);
        stack := stack + [b];
        tail := head.tail;
      }
    }

    method CheckClassBegin(bareColon: bool)
      requires Distinct(stack)
      modifies stack
      ensures Values(stack) == CheckBegin(old(Values(stack)), bareColon)
    {
      if !HasSeenOpenBrace() {
        var b := stack[|stack| - 1];
        if b.kind.Class? && bareColon {
          b.isDerived := true;
        }
      }
    }

    method UpdateAccess(access: Option<string>)
      requires Distinct(stack)
      modifies stack
      ensures Values(stack) == SetAccess(old(Values(stack)), access)
    {
      if stack != [] && stack[|stack| - 1].kind.Class? && access.Some? {
        stack[|stack| - 1].access := access.value;
      }
    }

    method ConsumeToken(token: Token)
      requires Distinct(stack)
      modifies this`stack, stack
      ensures Values(stack) == Consume(old(Values(stack)), token)
      ensures StackGrown()
    {
      match token
      case OpenBrace(asm) =>
        if !HasSeenOpenBrace() {
          stack[|stack| - 1].seenOpenBrace := true;
        } else {
          var b := new Block(Plain, true);
          stack := stack + [b];
          if asm {
            b.inlineAsm := BlockAsm;
          }
        }
      case CloseBrace =>
        if stack != [] {
          stack := stack[..|stack| - 1];
        }
      case _ =>
        if !HasSeenOpenBrace() {
          stack := stack[..|stack| - 1];
        }
    }

    method ConsumeTokens(tokens: seq<Token>)
      requires Distinct(stack)
      modifies this`stack, stack
      ensures Values(stack) == ConsumeAll(old(Values(stack)), tokens)
      ensures StackGrown()
    {
      ghost var before := Values(stack);
      for i := 0 to |tokens|
        invariant Values(stack) == ConsumeAll(before, tokens[..i])
        invariant StackGrown()
      {
        ConsumeToken(tokens[i]);
        assert tokens[..i + 1][..i] == tokens[..i];
      }
      assert tokens[..|tokens|] == tokens;
    }

    method UpdateResidual(line: Line)
      requires Distinct(stack)
      modifies this`stack, stack
      ensures Values(stack) == Residual(old(Values(stack)), line)
      ensures StackGrown()
    {
      hide CountParentheses, PushNamespaces, PushClass, TailOf, CheckBegin, SetAccess, ConsumeAll, Values;
      CountParens(line);
      PushNamespaceBlocks(line.namespaces);
      var tail := PushClassBlock(line);
      CheckClassBegin(line.bareColon);
      UpdateAccess(tail.access);
      ConsumeTokens(tail.tokens);
    }
  
    // ---------- preprocessor directives ----------

    // New blocks are given a place.
    ghost method Adopt(blocks: seq<Block>, place: int)
      requires Valid() && Distinct(blocks) && forall x :: x in blocks ==> x !in repr
      modifies this`home, this`repr
      ensures Valid() && AtHome(home, blocks, place)
      ensures repr == old(repr) + set x | x in blocks
    {
      hide Checkpoint, AtHome, Values;
      var was := home;
      home := Rehome(was, blocks, place);
      repr := repr + set x | x in blocks;
      CheckpointsKept(was, home, ppStack, model.pp);
      HomeKept(was, home, stack, -1);
    }

    method OnIf()
      requires Valid()
      modifies repr
      ensures Valid() && fresh(repr - old(repr))
      ensures model == UpdatePreprocessor(old(model), If)
    {
      hide Checkpoint, AtHome, Values;
      ghost var n := |ppStack|;
      var copy := DeepCopy(stack);
      Adopt(copy, 2 * n);
      var info := new PreprocessorInfo(copy, n);
      NewCheckpoint(home, info, n, Preprocessor(model.stack, [], false));
      ppStack := ppStack + [info];
      model := UpdatePreprocessor(model, If);
      repr := repr + {info};
    }

    // What is saved in the innermost checkpoint at its first #else.
    method SaveBeforeElse()
      requires Valid() && ppStack != []
      modifies repr
      ensures Valid() && fresh(repr - old(repr)) && ppStack == old(ppStack)
      ensures
        var n, m := |ppStack| - 1, old(model);
        model == m.(pp := m.pp[n := m.pp[n].(seenElse := true, stackBeforeElse := m.stack)])
    {
      hide Checkpoint, AtHome, Values;
      var n := |ppStack| - 1;
      ghost var p := model.pp[n];
      var info := ppStack[n];
      var saved := DeepCopy(stack);
      Adopt(saved, 2 * n + 1);
      CheckpointFacts(home, info, n, p);
      info.seenElse := true;
      info.stackBeforeElse := saved;
      MakeCheckpoint(home, info, n, p.(seenElse := true, stackBeforeElse := model.stack));
      model := model.(pp := model.pp[n := p.(seenElse := true, stackBeforeElse := model.stack)]);
    }

    method RestoreBeforeIf()
      requires Valid() && ppStack != []
      modifies repr
      ensures Valid() && fresh(repr - old(repr)) && ppStack == old(ppStack)
      ensures model == old(model).(stack := old(model).pp[|ppStack| - 1].stackBeforeIf)
    {
      hide Checkpoint, AtHome, Values;
      var n := |ppStack| - 1;
      CheckpointFacts(home, ppStack[n], n, model.pp[n]);
      var copy := DeepCopy(ppStack[n].stackBeforeIf);
      Adopt(copy, -1);
      stack := copy;
      model := model.(stack := model.pp[n].stackBeforeIf);
    }

    method OnElse()
      requires Valid()
      modifies repr
      ensures Valid() && fresh(repr - old(repr))
      ensures model == UpdatePreprocessor(old(model), Else)
    {
      if ppStack != [] {
        ghost var n := |ppStack| - 1;
        assert Checkpoint(home, ppStack[n], n, model.pp[n]);
        if !ppStack[|ppStack| - 1].seenElse {
          SaveBeforeElse();
        }
        RestoreBeforeIf();
      }
    }

    method OnEndif()
      requires Valid()
      modifies repr
      ensures Valid() && repr == old(repr)
      ensures model == UpdatePreprocessor(old(model), Endif)
    {
      hide Checkpoint, AtHome, Values;
      if ppStack != [] {
        var n := |ppStack| - 1;
        ghost var was := home;
        var info := ppStack[n];
        CheckpointFacts(home, info, n, model.pp[n]);
        if info.seenElse {
          // No copy: this was the last reference to the saved stack.
          stack := info.stackBeforeElse;
          home := Rehome(was, stack, -1);
        }
        ppStack := ppStack[..n];
        model := UpdatePreprocessor(model, Endif);
        CheckpointsKept(was, home, ppStack, model.pp);
      }
    }

    method UpdatePreprocessorStack(directive: Directive)
      requires Valid()
      modifies repr
      ensures Valid() && fresh(repr - old(repr))
      ensures model == UpdatePreprocessor(old(model), directive)
    {
      hide Valid;
      match directive
      case If => OnIf();
      case Else => OnElse();
      case Endif => OnEndif();
      case NoDirective =>
    }

    // The saved stacks are out of reach for the text of a line.
    method UpdateText(line: Line)
      requires Valid()
      modifies repr
      ensures Valid() && fresh(repr - old(repr))
      ensures model == old(model).(stack := Residual(old(model).stack, line))
    {
      hide Checkpoint, Values, Residual;
      ghost var was := home;
      StackIsHome(home, stack);
      UpdateResidual(line);
      model := model.(stack := Residual(model.stack, line));
      home := Rehome(was, stack, -1);
      repr := repr + (set x | x in stack);
      CheckpointsKept(was, home, ppStack, model.pp);
    }

    method UpdateLine(line: Line)
      requires Valid()
      modifies repr
      ensures Valid() && fresh(repr - old(repr))
      ensures model == Update(old(model), line)
    {
      hide Valid, Residual, UpdatePreprocessor;
      UpdatePreprocessorStack(line.directive);
      UpdateText(line);
    }
  }

  lemma StackIsHome(home: map<Block, int>, blocks: seq<Block>)
    requires AtHome(home, blocks, -1)
    ensures Distinct(blocks)
    ensures forall x :: x in blocks ==> x in home && home[x] == -1
  {
  }

  // The loop over the lines of a file.
  method ProcessFile(lines: seq<Line>) returns (nesting: NestingState)
    ensures nesting.Valid() && fresh(nesting.repr)
    ensures nesting.model == Run(State([], []), lines)
    ensures true !in Flags(nesting.model.pp) ==> Values(nesting.stack) == RunText([], Kept([], lines))
  {
    hide Update;
    nesting := new NestingState();
    for i := 0 to |lines|
      invariant nesting.Valid() && fresh(nesting.repr)
      invariant Run(State([], []), lines) == Run(nesting.model, lines[i..])
    {
      nesting.UpdateLine(lines[i]);
      assert lines[i..][1..] == lines[i + 1..];
    }
    FileErasure(lines);
  }
}
