/** The translator: parser actions over two mutable stacks and mutable generated-code objects. */
module DecodeTranslator {
  import opened Options
  import opened DecodeLanguage
  import opened DecodeCodegen
  import opened DecodeTree

  /** Generated code; only the decode part is kept here. */
  class GenCode {
    var decodeBlock: seq<CStmt>
    var hasDecodeDefault: bool

    constructor (code: seq<CStmt>, hasDefault: bool)
      ensures decodeBlock == code && hasDecodeDefault == hasDefault
    {
      decodeBlock, hasDecodeDefault := code, hasDefault;
    }

    /** Concatenation makes a new object and leaves both operands alone. */
    method Plus(other: GenCode) returns (r: GenCode)
      ensures fresh(r)
      ensures r.decodeBlock == decodeBlock + other.decodeBlock
      ensures r.hasDecodeDefault == (hasDecodeDefault || other.hasDecodeDefault)
    {
      r := new GenCode(decodeBlock + other.decodeBlock, hasDecodeDefault || other.hasDecodeDefault);
    }

    method WrapDecodeBlock(pre: seq<CStmt>, post: seq<CStmt>)
      modifies this
      ensures decodeBlock == pre + old(decodeBlock) + post
      ensures hasDecodeDefault == old(hasDecodeDefault)
    {
      decodeBlock := pre + decodeBlock + post;
    }

    method WrapSwitch(field: string)
      modifies this
      ensures decodeBlock == [Switch(field, old(decodeBlock))]
      ensures hasDecodeDefault == old(hasDecodeDefault)
    {
      decodeBlock := [Switch(field, decodeBlock)];
    }
  }

  class IsaParser {
    const formatMap: FormatMap
    /** None stands for the null format at the bottom of the stack. */
    var formatStack: seq<Option<string>>
    var defaultStack: seq<GenCode?>

    constructor (formats: FormatMap)
      ensures formatMap == formats && Ready()
      ensures formatStack == [None] && defaultStack == [null]
    {
      formatMap := formats;
      formatStack := [None];
      defaultStack := [null];
    }

    predicate Ready()
      reads this
    {
      |formatStack| > 0 && |defaultStack| > 0
    }

    function CurrentFormat(): Option<string>
      requires Ready()
      reads this
    {
      formatStack[|formatStack| - 1]
    }

    function CurrentDefault(): GenCode?
      requires Ready()
      reads this
    {
      defaultStack[|defaultStack| - 1]
    }

    predicate DefaultInScope()
      requires Ready()
      reads this
    {
      CurrentDefault() != null
    }

    function InheritedCode(): seq<CStmt>
      requires Ready()
      reads this, defaultStack
    {
      if CurrentDefault() != null then CurrentDefault().decodeBlock else []
    }

    /** The result of defining `i` by format `f`: its code under that name, or null if there is no such format. */
    predicate DefinesBy(r: GenCode?, i: Inst, f: string)
      reads r
    {
      if f in formatMap
      then r != null && r.decodeBlock == [Body(Defn(f, i.mnemonic, i.args), formatMap[f].terminal)]
      else r == null
    }

    /** An instruction is defined by its explicit format, else by the format on top of the stack; null
        stands for a parse error. */
    method DefineInst(i: Inst) returns (r: GenCode?)
      requires Ready()
      ensures r != null <==> Known(i, CurrentFormat(), formatMap)
      ensures r != null ==> fresh(r) && !r.hasDecodeDefault
      ensures r != null ==> r.decodeBlock == InstCode(i, formatMap, CurrentFormat())
      ensures i.fmt.Some? ==> DefinesBy(r, i, i.fmt.value)
      ensures i.fmt.None? && CurrentFormat().Some? ==> DefinesBy(r, i, CurrentFormat().value)
      ensures i.fmt.None? && CurrentFormat().None? ==> r == null
    {
      var format := i.fmt;
      if format.None? {
        format := CurrentFormat();
      }
      if format.None? || format.value !in formatMap {
        return null;
      }
      r := new GenCode([Body(Defn(format.value, i.mnemonic, i.args), formatMap[format.value].terminal)], false);
    }

    /** Accepts exactly the good blocks; on success both stacks are as before. */
    method DecodeBlock(b: Block) returns (r: GenCode?)
      requires Ready()
      modifies this
      ensures r != null <==> GoodBlock(b, formatMap, old(CurrentFormat()), old(DefaultInScope()))
      ensures r != null ==> fresh(r) && formatStack == old(formatStack) && defaultStack == old(defaultStack)
      ensures r != null ==>
                r.decodeBlock ==
                  BlockCode(b, formatMap, old(CurrentFormat()), old(DefaultInScope()), old(InheritedCode()))
      decreases b, 0
    {
      if b.dflt.Some? {
        var clause := DefineInst(b.dflt.value);
        if clause == null {
          return null;
        }
        clause.WrapDecodeBlock([DefaultMark], [Break]);
        defaultStack := defaultStack + [clause];
      } else {
        defaultStack := defaultStack + [CurrentDefault()];
      }

      var code := StmtListCode(b.stmts);
      if code == null {
        return null;
      }

      var defaultDefaults := CurrentDefault();
      defaultStack := defaultStack[..|defaultStack| - 1];
      if !code.hasDecodeDefault {
        if defaultDefaults == null {
          return null;
        }
        code := code.Plus(defaultDefaults);
      }
      assert code.decodeBlock
          == SwitchBody(b, formatMap, old(CurrentFormat()), old(DefaultInScope()), old(InheritedCode()));
      code.WrapSwitch(b.field);
      r := code;
    }

    method StmtListCode(l: StmtList) returns (r: GenCode?)
      requires Ready()
      modifies this
      ensures r != null <==> GoodList(l, formatMap, old(CurrentFormat()), old(DefaultInScope())) && DefaultCount(l) <= 1
      ensures r != null ==> fresh(r) && formatStack == old(formatStack) && defaultStack == old(defaultStack)
      ensures r != null ==> r.hasDecodeDefault == (DefaultCount(l) > 0)
      ensures r != null ==>
                r.decodeBlock ==
                  ListCode(l, formatMap, old(CurrentFormat()), old(DefaultInScope()), old(InheritedCode()))
      decreases l, 0
    {
      var first := StmtCodeOf(l.stmt);
      if first == null || l.Last? {
        return first;
      }
      var rest := StmtListCode(l.rest);
      if rest == null {
        return null;
      }
      if first.hasDecodeDefault && rest.hasDecodeDefault {
        return null;
      }
      r := first.Plus(rest);
    }

    method StmtCodeOf(s: Stmt) returns (r: GenCode?)
      requires Ready()
      modifies this
      ensures r != null <==>
        GoodStmt(s, formatMap, old(CurrentFormat()), old(DefaultInScope())) && StmtDefaultCount(s) <= 1
      ensures r != null ==> fresh(r) && formatStack == old(formatStack) && defaultStack == old(defaultStack)
      ensures r != null ==> r.hasDecodeDefault == (StmtDefaultCount(s) > 0)
      ensures r != null ==>
                r.decodeBlock ==
                  StmtCode(s, formatMap, old(CurrentFormat()), old(DefaultInScope()), old(InheritedCode()))
      decreases s, 0
    {
      match s {
        case InstStmt(lab, i) =>
          r := DefineInst(i);
          if r != null {
            r.WrapDecodeBlock(LabelCode(lab), [Break]);
            r.hasDecodeDefault := lab.DefaultLabel?;
          }
        case DecodeStmt(lab, b) =>
          r := DecodeBlock(b);
          if r != null {
            r.WrapDecodeBlock(LabelCode(lab), []);
            r.hasDecodeDefault := lab.DefaultLabel?;
          }
        case FormatStmt(f, body) =>
          if f !in formatMap {
            return null;
          }
          formatStack := formatStack + [Some(f)];
          r := StmtListCode(body);
          if r != null {
            formatStack := formatStack[..|formatStack| - 1];
          }
      }
    }
  }

  /** A whole decode block, translated by a fresh parser: accepted exactly when it is good, and then the
      emitted switch decodes every machine instruction to its meaning. */
  method Translate(b: Block, formats: FormatMap) returns (code: Option<seq<CStmt>>)
    ensures code.Some? <==> GoodBlock(b, formats, None, false)
    ensures code.Some? && AllReturn(formats) ==>
              forall env: Env :: Exec(code.value, env) == Run([BlockMeaning(b, env, formats, None, None)], Returned)
    ensures code.Some? <==> BlockTree(b, formats, [], []).Some?
    ensures code.Some? && AllReturn(formats) ==>
              forall env: Env ::
                Exec(code.value, env) == Run([Chosen(BlockTree(b, formats, [], []).value, env)], Returned)
    ensures code.Some? ==> (Compiles(code.value) <==> DistinctLabels(b))
  {
    var p := new IsaParser(formats);
    var g := p.DecodeBlock(b);
    TreeDecides(b, (field: string) => 0, formats);
    if g == null {
      return None;
    }
    code := Some(g.decodeBlock);
    if AllReturn(formats) {
      forall env: Env
        ensures Exec(code.value, env) == Run([BlockMeaning(b, env, formats, None, None)], Returned)
        ensures Exec(code.value, env) == Run([Chosen(BlockTree(b, formats, [], []).value, env)], Returned)
      {
        hide *;
        DecodeCorrect(b, env, formats);
        TreeDecides(b, env, formats);
      }
    }
    BlockCompiles(b, formats, None, false, []);
  }
}
