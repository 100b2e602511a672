/** The two-pass linker: pass one reads the modules' definition, use and
    program lists, builds the symbol table and lays the modules out in
    memory; pass two reads the same input again, relocates every
    instruction into the memory map and reports the symbols and use-list
    entries that were never used. */
module Linker {
  import opened Common
  import opened LinkerTables

  /** The parser over the input's tokens (the file already split at blanks,
      tabs and line ends). A token read past the end of the input is empty. */
  class Parser {
    const tokens: seq<string>
    /** The index of the next token to read. */
    var pos: nat
    /** def_list: the symbol table. */
    var defList: seq<Symbol>
    /** mod_list: base, size and use list of each module. */
    var modList: seq<Module>
    /** Rule-5 warnings of pass one. */
    var tooBig: seq<Warning>
    /** The words pass two writes, one per instruction. */
    var memoryMap: seq<Entry>
    /** Rule-7 warnings of pass two. */
    var unusedUses: seq<Warning>
    /** Rule-4 warnings of pass two. */
    var unusedDefs: seq<Warning>
    /** Every definition pass one has read, in input order. */
    ghost var defs: seq<Def>
    /** Every instruction pass two has read, in input order. */
    ghost var code: seq<Instr>

    constructor (input: seq<string>)
      ensures tokens == input && pos == 0
      ensures defList == [] && modList == [] && tooBig == []
      ensures memoryMap == [] && unusedUses == [] && unusedDefs == []
      ensures defs == [] && code == []
    {
      tokens := input;
      pos := 0;
      defList, modList, tooBig := [], [], [];
      memoryMap, unusedUses, unusedDefs := [], [], [];
      defs, code := [], [];
    }

    /** The token at index i; empty past the end of the input. */
    function Token(i: nat): string
    {
      if i < |tokens| then tokens[i] else ""
    }

    /** The cursor after n more reads from i: reads stop at the end. */
    function Skip(i: nat, n: nat): nat
      requires i <= |tokens|
    {
      if i + n <= |tokens| then i + n else |tokens|
    }

    // -------------------------------------------------------------------------
    // Reading tokens

    /** getToken: the next token, or the empty one at the end of the input. */
    method GetToken() returns (token: string)
      requires pos <= |tokens|
      modifies this`pos
      ensures token == Token(old(pos)) && pos == Skip(old(pos), 1)
    {
      if pos < |tokens| {
        token := tokens[pos];
        pos := pos + 1;
      } else {
        token := "";
      }
    }

    /** readInt: NUM_EXPECTED unless the token is all digits. */
    method ReadInt() returns (r: Read<nat>)
      requires pos <= |tokens|
      modifies this`pos
      ensures pos == Skip(old(pos), 1)
      ensures var t := Token(old(pos));
        r == if AllDigits(t) then Ok(DecimalValue(t)) else Fail(NumExpected)
    {
      var token := GetToken();
      var ok := IsInt(token);
      if !ok {
        return Fail(NumExpected);
      }
      return Ok(DecimalValue(token));
    }

    /** readSym: SYM_EXPECTED unless symbol-shaped, then SYM_TOO_LONG beyond
        16 characters. */
    method ReadSym() returns (r: Read<string>)
      requires pos <= |tokens|
      modifies this`pos
      ensures pos == Skip(old(pos), 1)
      ensures r == SymbolOf(Token(old(pos)))
    {
      var token := GetToken();
      var ok := IsSym(token);
      if !ok {
        return Fail(SymExpected);
      }
      if |token| > MAX_SYMBOL_LENGTH {
        return Fail(SymTooLong);
      }
      return Ok(token);
    }

    /** readIAER: ADDR_EXPECTED unless the token starts with I, A, E or R. */
    method ReadIaer() returns (r: Read<Mode>)
      requires pos <= |tokens|
      modifies this`pos
      ensures pos == Skip(old(pos), 1)
      ensures var t := Token(old(pos));
        r == if IsIaer(t) then Ok(ModeOf(t[0])) else Fail(AddrExpected)
    {
      var token := GetToken();
      if !IsIaer(token) {
        return Fail(AddrExpected);
      }
      return Ok(ModeOf(token[0]));
    }

    /** The count at token i is read as a number: NUM_EXPECTED if it is not
        one, tooMany if it is above limit, and on success n items follow. */
    ghost predicate CountRead(i: nat, limit: int, tooMany: ParseError, err: Option<ParseError>, n: nat)
    {
      var t := Token(i);
      && (!AllDigits(t) ==> err == Some(NumExpected))
      && (AllDigits(t) && DecimalValue(t) > limit ==> err == Some(tooMany))
      && (err == None ==> AllDigits(t) && DecimalValue(t) <= limit && n == DecimalValue(t))
    }

    /** Definition d of module modnum was read from the symbol at token i and
        the number after it. */
    ghost predicate DefRead(i: nat, modnum: int, d: Def)
      requires i <= |tokens|
    {
      var v := Token(Skip(i, 1));
      SymbolOf(Token(i)).Ok? && AllDigits(v) && d == Def(Token(i), DecimalValue(v), modnum)
    }

    // -------------------------------------------------------------------------
    // Where each module's text lies in the input

    /** The count at token i; 0 when the token is not a number. */
    ghost function CountAt(i: nat): nat
    {
      if AllDigits(Token(i)) then DecimalValue(Token(i)) else 0
    }

    /** Token i is the count n. */
    ghost predicate CountIs(i: nat, n: nat)
    {
      AllDigits(Token(i)) && DecimalValue(Token(i)) == n
    }

    /** The use list of the module whose text starts at token i: after the
        count of its definitions and that many symbol/number pairs. */
    ghost function UsesFrom(i: nat): nat
      requires i <= |tokens|
    {
      Skip(i, 1 + 2 * CountAt(i))
    }

    /** The program text of the module whose text starts at token i: after
        its use list's count and that many symbols. */
    ghost function CodeFrom(i: nat): nat
      requires i <= |tokens|
    {
      var u := UsesFrom(i);
      Skip(u, 1 + CountAt(u))
    }

    /** Where the module whose text starts at token i ends: after its
        instruction count and that many mode/word pairs. */
    ghost function ModuleEnd(i: nat): nat
      requires i <= |tokens|
    {
      var c := CodeFrom(i);
      Skip(c, 1 + 2 * CountAt(c))
    }

    /** Where the text of module k (numbered from 0) starts: the modules
        follow one another from the first token. */
    ghost function ModuleStart(k: nat): (i: nat)
      ensures i <= |tokens|
    {
      if k == 0 then 0 else ModuleEnd(ModuleStart(k - 1))
    }

    /** The definition list at token i holds the definitions ds of module
        modnum. */
    ghost predicate DefListAt(i: nat, modnum: int, ds: seq<Def>)
      requires i <= |tokens|
    {
      CountIs(i, |ds|) && forall k :: 0 <= k < |ds| ==> DefRead(Skip(i, 1 + 2 * k), modnum, ds[k])
    }

    /** The use list at token i holds the symbols uses. */
    ghost predicate UseListAt(i: nat, uses: seq<string>)
      requires i <= |tokens|
    {
      CountIs(i, |uses|) && forall k :: 0 <= k < |uses| ==> uses[k] == Token(Skip(i, 1 + k)) && SymbolOf(uses[k]).Ok?
    }

    /** The program text at token i holds n well-formed instructions. */
    ghost predicate CodeFormAt(i: nat, n: nat)
      requires i <= |tokens|
    {
      CountIs(i, n) && forall k :: 0 <= k < n ==> InstrRead(Skip(i, 1 + 2 * k))
    }

    /** Pass one read module m, numbered modnum, with definitions ds, from the
        text at token i. */
    ghost predicate ModuleRead(i: nat, modnum: int, ds: seq<Def>, m: Module)
      requires i <= |tokens|
    {
      && DefListAt(i, modnum, ds) && UseListAt(UsesFrom(i), m.useList)
      && 0 <= m.size && CodeFormAt(CodeFrom(i), m.size)
    }

    /** The input is the text of the first |mods| modules, each read by pass
        one with its definitions among defs, and nothing more. */
    ghost predicate Parsed(defs: seq<Def>, mods: seq<Module>)
    {
      ModuleStart(|mods|) == |tokens| && ModulesParsed(defs, mods)
    }

    /** The input starts with the text of modules mods, each read by pass one
        with its definitions among defs. */
    ghost predicate ModulesParsed(defs: seq<Def>, mods: seq<Module>)
    {
      forall k {:trigger ModuleParsed(defs, k, mods[k])} :: 0 <= k < |mods| ==> ModuleParsed(defs, k, mods[k])
    }

    /** Module k (from 0) is m, read by pass one from its text with its
        definitions among defs. */
    ghost predicate ModuleParsed(defs: seq<Def>, k: nat, m: Module)
    {
      ModuleStart(k) < |tokens| && ModuleRead(ModuleStart(k), k + 1, DefsOf(defs, k + 1), m)
    }

    /** The definition list at token i has the form pass two checks: a count,
        then that many symbol/number pairs. */
    ghost predicate DefsFormAt(i: nat)
      requires i <= |tokens|
    {
      AllDigits(Token(i)) && forall k :: 0 <= k < CountAt(i) ==> DefPairAt(i, k)
    }

    /** Pair k of the definition list at token i has the form pass two
        checks: a symbol, then a number. */
    ghost predicate DefPairAt(i: nat, k: nat)
      requires i <= |tokens|
    {
      SymbolOf(Token(Skip(i, 1 + 2 * k))).Ok? && AllDigits(Token(Skip(i, 2 + 2 * k)))
    }

    /** The use list at token i has the form pass two checks: a count, then
        that many symbols. */
    ghost predicate UsesFormAt(i: nat)
      requires i <= |tokens|
    {
      AllDigits(Token(i)) && forall k :: 0 <= k < CountAt(i) ==> SymbolOf(UseToken(i, k)).Ok?
    }

    /** Symbol k of the use list at token i. */
    ghost function UseToken(i: nat, k: nat): string
      requires i <= |tokens|
    {
      Token(Skip(i, 1 + k))
    }

    /** The module text at token i has the form pass two checks. */
    ghost predicate ModuleForm(i: nat)
      requires i <= |tokens|
    {
      DefsFormAt(i) && UsesFormAt(UsesFrom(i)) && CodeFormAt(CodeFrom(i), CountAt(CodeFrom(i)))
    }

    /** Instruction c of module mi was read from the mode at token i and the
        number after it. */
    ghost predicate InstrAt(i: nat, mi: nat, c: Instr)
      requires i <= |tokens|
    {
      InstrRead(i) && c == Instr(ModeOf(Token(i)[0]), DecimalValue(Token(Skip(i, 1))), mi)
    }

    /** The program text at token i holds the instructions cs of module mi. */
    ghost predicate CodeAt(i: nat, mi: nat, cs: seq<Instr>)
      requires i <= |tokens|
    {
      CountIs(i, |cs|) && forall k :: 0 <= k < |cs| ==> InstrAt(Skip(i, 1 + 2 * k), mi, cs[k])
    }

    /** Pass two read the instructions code from the program texts of the
        first n modules, module after module. */
    ghost predicate CodeRead(code: seq<Instr>, n: nat)
    {
      && (forall k :: 0 <= k < |code| ==> code[k].modIndex < n)
      && forall k {:trigger ModuleCode(code, k)} :: 0 <= k < n ==> ModuleCode(code, k)
    }

    /** The instructions of module k among code are those of its program
        text. */
    ghost predicate ModuleCode(code: seq<Instr>, k: nat)
    {
      CodeAt(CodeFrom(ModuleStart(k)), k, CodeOf(code, k))
    }

    /** What pass one read has the form pass two checks. */
    lemma ReadForm(i: nat, modnum: int, ds: seq<Def>, m: Module)
      requires i <= |tokens| && ModuleRead(i, modnum, ds, m)
      ensures ModuleForm(i)
    {
      DefListForm(i, modnum, ds);
      UseListForm(UsesFrom(i), m.useList);
    }

    /** A definition list pass one read has the form pass two checks. */
    lemma DefListForm(i: nat, modnum: int, ds: seq<Def>)
      requires i <= |tokens| && DefListAt(i, modnum, ds)
      ensures DefsFormAt(i)
    {
      forall k | 0 <= k < CountAt(i)
        ensures DefPairAt(i, k)
      {
        assert DefRead(Skip(i, 1 + 2 * k), modnum, ds[k]);
        assert Skip(Skip(i, 1 + 2 * k), 1) == Skip(i, 2 + 2 * k);
      }
    }

    /** A use list pass one read has the form pass two checks. */
    lemma UseListForm(u: nat, uses: seq<string>)
      requires u <= |tokens| && UseListAt(u, uses)
      ensures UsesFormAt(u)
    {
      forall k | 0 <= k < CountAt(u)
        ensures SymbolOf(UseToken(u, k)).Ok?
      {
        assert uses[k] == Token(Skip(u, 1 + k));
      }
    }

    /** The text of module k (from 0) has the form pass two checks. */
    ghost predicate ModuleWellFormed(k: nat)
    {
      ModuleForm(ModuleStart(k))
    }

    /** Every module pass one read starts before the input ends and has the
        form pass two checks. */
    lemma ParsedForm(defs: seq<Def>, mods: seq<Module>)
      requires ModulesParsed(defs, mods)
      ensures forall k :: 0 <= k < |mods| ==> ModuleStart(k) < |tokens| && ModuleWellFormed(k)
    {
      forall k | 0 <= k < |mods|
        ensures ModuleStart(k) < |tokens| && ModuleWellFormed(k)
      {
        assert ModuleParsed(defs, k, mods[k]);
        ReadForm(ModuleStart(k), k + 1, DefsOf(defs, k + 1), mods[k]);
      }
    }

    /** One more module read after mods, with definitions ds, extends the
        modules parsed. */
    lemma ParsedAppend(defs: seq<Def>, mods: seq<Module>, ds: seq<Def>, m: Module)
      requires ModulesParsed(defs, mods) && DefsIn(defs, |mods|)
      requires forall k :: 0 <= k < |ds| ==> ds[k].modnum == |mods| + 1
      requires ModuleStart(|mods|) < |tokens| && ModuleRead(ModuleStart(|mods|), |mods| + 1, ds, m)
      ensures ModulesParsed(defs + ds, mods + [m])
    {
      forall k | 0 <= k < |mods| + 1
        ensures ModuleParsed(defs + ds, k, (mods + [m])[k])
      {
        if k == |mods| {
          NewModuleParsed(defs, ds, k, m);
        } else {
          OldModuleParsed(defs, ds, |mods| + 1, k, mods[k]);
        }
      }
    }

    /** Definitions of a later module leave module k's definitions alone. */
    lemma OldModuleParsed(defs: seq<Def>, ds: seq<Def>, modnum: int, k: nat, m: Module)
      requires ModuleParsed(defs, k, m) && modnum != k + 1
      requires forall j :: 0 <= j < |ds| ==> ds[j].modnum == modnum
      ensures ModuleParsed(defs + ds, k, m)
    {
      DefsOfAppend(defs, ds, modnum, k + 1);
    }

    /** Module k read with definitions ds, none of them before. */
    lemma NewModuleParsed(defs: seq<Def>, ds: seq<Def>, k: nat, m: Module)
      requires DefsIn(defs, k) && forall j :: 0 <= j < |ds| ==> ds[j].modnum == k + 1
      requires ModuleStart(k) < |tokens| && ModuleRead(ModuleStart(k), k + 1, ds, m)
      ensures ModuleParsed(defs + ds, k, m)
    {
      DefsOfNew(defs, ds, k + 1);
    }

    /** The instructions cs of module n, read from its program text, extend
        what pass two read. */
    lemma CodeReadAppend(code: seq<Instr>, n: nat, cs: seq<Instr>)
      requires CodeRead(code, n) && CodeAt(CodeFrom(ModuleStart(n)), n, cs)
      ensures CodeRead(code + cs, n + 1)
    {
      assert forall k :: 0 <= k < |cs| ==> InstrAt(Skip(CodeFrom(ModuleStart(n)), 1 + 2 * k), n, cs[k]);
      forall k | 0 <= k < n + 1
        ensures ModuleCode(code + cs, k)
      {
        ModuleCodeAppend(code, n, cs, k);
      }
      forall k | 0 <= k < |code + cs|
        ensures (code + cs)[k].modIndex < n + 1
      {
        if k >= |code| {
          assert (code + cs)[k] == cs[k - |code|];
        }
      }
    }

    /** Module k's instructions after module n's are appended: its own when
        k is n, unchanged otherwise. */
    lemma ModuleCodeAppend(code: seq<Instr>, n: nat, cs: seq<Instr>, k: nat)
      requires forall j :: 0 <= j < |code| ==> code[j].modIndex < n
      requires forall j :: 0 <= j < |cs| ==> cs[j].modIndex == n
      requires k <= n && (k < n ==> ModuleCode(code, k))
      requires k == n ==> CodeAt(CodeFrom(ModuleStart(n)), n, cs)
      ensures ModuleCode(code + cs, k)
    {
      CodeOfAppend(code, cs, n, k);
      if k == n {
        CodeOfNone(code, n);
        assert [] + cs == cs;
        assert CodeOf(code + cs, k) == cs;
      } else {
        assert CodeOf(code + cs, k) == CodeOf(code, k);
      }
    }

    // -------------------------------------------------------------------------
    // What pass one reports for a text

    /** The error of a count at token i with the given limit: NUM_EXPECTED,
        then tooMany above the limit; None when it reads. */
    ghost function CountError(i: nat, limit: int, tooMany: ParseError): Option<ParseError>
    {
      if !AllDigits(Token(i)) then Some(NumExpected)
      else if DecimalValue(Token(i)) > limit then Some(tooMany)
      else None
    }

    /** The error of the definition pair at token i: the symbol's, then
        NUM_EXPECTED for its value. */
    ghost function PairError(i: nat): Option<ParseError>
      requires i <= |tokens|
    {
      var s := SymbolOf(Token(i));
      if s.Fail? then Some(s.error)
      else if !AllDigits(Token(Skip(i, 1))) then Some(NumExpected)
      else None
    }

    /** The first error among pairs k to n - 1 of the definition list at
        token i. */
    ghost function PairsError(i: nat, k: nat, n: nat): Option<ParseError>
      requires i <= |tokens|
      decreases n - k
    {
      if k >= n then None
      else if PairError(Skip(i, 1 + 2 * k)) != None then PairError(Skip(i, 1 + 2 * k))
      else PairsError(i, k + 1, n)
    }

    /** The error of the definition list at token i. */
    ghost function DefsError(i: nat): Option<ParseError>
      requires i <= |tokens|
    {
      var e := CountError(i, MAX_DEFS, TooManyDefs);
      if e != None then e else PairsError(i, 0, CountAt(i))
    }

    /** The first error among symbols k to n - 1 of the use list at token u. */
    ghost function SymsError(u: nat, k: nat, n: nat): Option<ParseError>
      requires u <= |tokens|
      decreases n - k
    {
      if k >= n then None
      else if SymbolOf(UseToken(u, k)).Fail? then Some(SymbolOf(UseToken(u, k)).error)
      else SymsError(u, k + 1, n)
    }

    /** The error of the use list at token u. */
    ghost function UsesError(u: nat): Option<ParseError>
      requires u <= |tokens|
    {
      var e := CountError(u, MAX_USES, TooManyUses);
      if e != None then e else SymsError(u, 0, CountAt(u))
    }

    /** The error of the instruction at token j: ADDR_EXPECTED for its mode,
        then NUM_EXPECTED for its word. */
    ghost function InstrError(j: nat): Option<ParseError>
      requires j <= |tokens|
    {
      if !IsIaer(Token(j)) then Some(AddrExpected)
      else if !AllDigits(Token(Skip(j, 1))) then Some(NumExpected)
      else None
    }

    /** The first error among instructions k to n - 1 of the program text at
        token c. */
    ghost function InstrsError(c: nat, k: nat, n: nat): Option<ParseError>
      requires c <= |tokens|
      decreases n - k
    {
      if k >= n then None
      else if InstrError(Skip(c, 1 + 2 * k)) != None then InstrError(Skip(c, 1 + 2 * k))
      else InstrsError(c, k + 1, n)
    }

    /** The error of the program text at token c, after total instructions of
        the earlier modules. */
    ghost function CodeError(c: nat, total: nat): Option<ParseError>
      requires c <= |tokens|
    {
      var e := CountError(c, MACHINE_SIZE - total, TooManyInstr);
      if e != None then e else InstrsError(c, 0, CountAt(c))
    }

    /** The error of the module whose text starts at token i, placed at base:
        its definition list's, then its use list's, then its program text's. */
    ghost function ModuleError(i: nat, base: nat): Option<ParseError>
      requires i <= |tokens|
    {
      var d := DefsError(i);
      if d != None then d
      else
        var u := UsesError(UsesFrom(i));
        if u != None then u else CodeError(CodeFrom(i), base)
    }

    /** The error of the modules from token i to the end of the input, the
        first placed at base: the first module's error, else the rest's. */
    ghost function InputError(i: nat, base: nat): Option<ParseError>
      requires i <= |tokens|
      decreases |tokens| - i
    {
      if i == |tokens| then None
      else if ModuleError(i, base) != None then ModuleError(i, base)
      else InputError(ModuleEnd(i), base + CountAt(CodeFrom(i)))
    }

    /** The module text at token i has the form pass two checks and keeps
        within the limits: at most 16 definitions, at most 16 uses, and room
        in the machine after base for its instructions. */
    ghost predicate ModuleFits(i: nat, base: nat)
      requires i <= |tokens|
    {
      && ModuleForm(i) && CountAt(i) <= MAX_DEFS && CountAt(UsesFrom(i)) <= MAX_USES
      && base + CountAt(CodeFrom(i)) <= MACHINE_SIZE
    }

    /** The input from token i on is a sequence of module texts that fit, the
        first placed at base. */
    ghost predicate TextFits(i: nat, base: nat)
      requires i <= |tokens|
      decreases |tokens| - i
    {
      i == |tokens| || (ModuleFits(i, base) && TextFits(ModuleEnd(i), base + CountAt(CodeFrom(i))))
    }

    /** The input from module text i on fails as that module does, or else
        as the rest does. */
    lemma InputErrorStep(i: nat, base: nat)
      requires i < |tokens|
      ensures ModuleError(i, base) != None ==> InputError(i, base) == ModuleError(i, base)
      ensures ModuleError(i, base) == None ==> InputError(i, base) == InputError(ModuleEnd(i), base + CountAt(CodeFrom(i)))
    {
    }

    /** The error of the pairs from k on, one pair taken off. */
    lemma PairsErrorStep(i: nat, k: nat, n: nat)
      requires i <= |tokens| && k < n
      ensures PairError(Skip(i, 1 + 2 * k)) != None ==> PairsError(i, k, n) == PairError(Skip(i, 1 + 2 * k))
      ensures PairError(Skip(i, 1 + 2 * k)) == None ==> PairsError(i, k, n) == PairsError(i, k + 1, n)
    {
    }

    /** The error of the use-list symbols from k on, one symbol taken off. */
    lemma SymsErrorStep(u: nat, k: nat, n: nat)
      requires u <= |tokens| && k < n
      ensures SymbolOf(UseToken(u, k)).Fail? ==> SymsError(u, k, n) == Some(SymbolOf(UseToken(u, k)).error)
      ensures SymbolOf(UseToken(u, k)).Ok? ==> SymsError(u, k, n) == SymsError(u, k + 1, n)
    {
    }

    /** The error of the instructions from k on, one instruction taken off. */
    lemma InstrsErrorStep(c: nat, k: nat, n: nat)
      requires c <= |tokens| && k < n
      ensures InstrError(Skip(c, 1 + 2 * k)) != None ==> InstrsError(c, k, n) == InstrError(Skip(c, 1 + 2 * k))
      ensures InstrError(Skip(c, 1 + 2 * k)) == None ==> InstrsError(c, k, n) == InstrsError(c, k + 1, n)
    {
    }

    /** After a module at token i that gives no error, the input's error is
        that of the modules after it. */
    lemma InputErrorAdvance(i: nat, base: nat, j: nat, next: nat)
      requires i < |tokens| && ModuleError(i, base) == None
      requires j == ModuleEnd(i) && next == base + CountAt(CodeFrom(i))
      ensures j <= |tokens| && InputError(i, base) == InputError(j, next)
    {
    }

    /** No pair from k on fails exactly when each has the form pass two
        checks. */
    lemma {:induction false} PairsErrorNone(i: nat, k: nat, n: nat)
      requires i <= |tokens|
      ensures PairsError(i, k, n) == None <==> forall j :: k <= j < n ==> DefPairAt(i, j)
      decreases n - k
    {
      if k < n {
        PairsErrorNone(i, k + 1, n);
        assert Skip(Skip(i, 1 + 2 * k), 1) == Skip(i, 2 + 2 * k);
        assert PairError(Skip(i, 1 + 2 * k)) == None <==> DefPairAt(i, k);
      }
    }

    /** No use-list symbol from k on fails exactly when each is a valid
        symbol. */
    lemma {:induction false} SymsErrorNone(u: nat, k: nat, n: nat)
      requires u <= |tokens|
      ensures SymsError(u, k, n) == None <==> forall j :: k <= j < n ==> SymbolOf(UseToken(u, j)).Ok?
      decreases n - k
    {
      if k < n {
        SymsErrorNone(u, k + 1, n);
      }
    }

    /** No instruction from k on fails exactly when each reads. */
    lemma {:induction false} InstrsErrorNone(c: nat, k: nat, n: nat)
      requires c <= |tokens|
      ensures InstrsError(c, k, n) == None <==> forall j :: k <= j < n ==> InstrRead(Skip(c, 1 + 2 * j))
      decreases n - k
    {
      if k < n {
        InstrsErrorNone(c, k + 1, n);
      }
    }

    /** Pass one reads a module without error exactly when its text fits. */
    lemma ModuleErrorNone(i: nat, base: nat)
      requires i <= |tokens|
      ensures ModuleError(i, base) == None <==> ModuleFits(i, base)
    {
      PairsErrorNone(i, 0, CountAt(i));
      SymsErrorNone(UsesFrom(i), 0, CountAt(UsesFrom(i)));
      InstrsErrorNone(CodeFrom(i), 0, CountAt(CodeFrom(i)));
    }

    /** Pass one reads the input from token i without error exactly when it
        is a sequence of module texts that fit. */
    lemma {:induction false} InputErrorNone(i: nat, base: nat)
      requires i <= |tokens|
      ensures InputError(i, base) == None <==> TextFits(i, base)
      decreases |tokens| - i
    {
      if i < |tokens| {
        ModuleErrorNone(i, base);
        InputErrorNone(ModuleEnd(i), base + CountAt(CodeFrom(i)));
      }
    }

    // -------------------------------------------------------------------------
    // Pass one

    /** Enters one definition: a new name is appended with its relative
        address, a known one has its definition count raised. */
    method DefineSymbol(sym: string, val: nat, modnum: int)
      requires defList == Table(defs)
      modifies this`defList, this`defs
      ensures defs == old(defs) + [Def(sym, val, modnum)]
      ensures defList == Table(defs)
    {
      var d := Def(sym, val, modnum);
      var index := FindSymbol(defList, sym);
      if index == -1 {
        DefineFresh(defList, d);
        defList := defList + [Symbol(sym, val, 0, modnum, 1, false)];
      } else {
        DefineKnown(defList, d);
        defList := defList[index := defList[index].(defined := defList[index].defined + 1)];
      }
      TableAppend(defs, d);
      defs := defs + [d];
    }

    /** The definition list of module modnum in pass one; ds are the
        definitions read. */
    method ReadDefs(modnum: int) returns (err: Option<ParseError>, ghost ds: seq<Def>)
      requires pos <= |tokens| && defList == Table(defs)
      modifies this`pos, this`defList, this`defs
      ensures old(pos) <= pos <= |tokens| && (old(pos) < |tokens| ==> old(pos) < pos)
      ensures defs == old(defs) + ds && defList == Table(defs)
      ensures forall k :: 0 <= k < |ds| ==> ds[k].modnum == modnum
      ensures CountRead(old(pos), MAX_DEFS, TooManyDefs, err, |ds|)
      ensures err == None ==> pos == UsesFrom(old(pos)) && DefListAt(old(pos), modnum, ds)
      ensures err == DefsError(old(pos))
    {
      ghost var p0 := pos;
      ds := [];
      var count := ReadInt();
      if count.Fail? {
        return Some(count.error), ds;
      }
      if count.value > MAX_DEFS {
        return Some(TooManyDefs), ds;
      }
      err, ds := ReadPairs(p0, count.value, modnum);
    }

    /** The count pairs of the definition list at p0, whose count has been
        read: each symbol and value is entered in the table. */
    method ReadPairs(ghost p0: nat, count: nat, modnum: int) returns (err: Option<ParseError>, ghost ds: seq<Def>)
      requires p0 <= |tokens| && pos == Skip(p0, 1) && defList == Table(defs)
      modifies this`pos, this`defList, this`defs
      ensures old(pos) <= pos <= |tokens|
      ensures defs == old(defs) + ds && defList == Table(defs)
      ensures forall k :: 0 <= k < |ds| ==> ds[k].modnum == modnum
      ensures err == None ==> |ds| == count && pos == Skip(p0, 1 + 2 * count)
      ensures forall k :: 0 <= k < |ds| ==> DefRead(Skip(p0, 1 + 2 * k), modnum, ds[k])
      ensures err == PairsError(p0, 0, count)
    {
      ghost var d0 := defs;
      ds := [];
      var i := 0;
      while i < count
        invariant i <= count && pos == Skip(p0, 1 + 2 * i)
        invariant defList == Table(defs) && defs == d0 + ds && |ds| == i
        invariant forall k :: 0 <= k < i ==> DefRead(Skip(p0, 1 + 2 * k), modnum, ds[k])
        invariant PairsError(p0, 0, count) == PairsError(p0, i, count)
      {
        ghost var q := pos;
        ghost var d;
        PairsErrorStep(p0, i, count);
        err, d := ReadDef(modnum);
        if err != None {
          return err, ds;
        }
        DefsReadStep(p0, q, ds, d, modnum);
        Associative(d0, ds, d);
        ds := ds + [d];
        i := i + 1;
      }
      return None, ds;
    }

    /** One more definition read after ds keeps their positions. */
    lemma DefsReadStep(p0: nat, q: nat, ds: seq<Def>, d: Def, modnum: int)
      requires p0 <= |tokens| && q == Skip(p0, 1 + 2 * |ds|)
      requires forall k :: 0 <= k < |ds| ==> DefRead(Skip(p0, 1 + 2 * k), modnum, ds[k])
      requires DefRead(q, modnum, d)
      ensures forall k :: 0 <= k < |ds| + 1 ==> DefRead(Skip(p0, 1 + 2 * k), modnum, (ds + [d])[k])
    {
      forall k | 0 <= k < |ds| + 1
        ensures DefRead(Skip(p0, 1 + 2 * k), modnum, (ds + [d])[k])
      {
        if k < |ds| {
          assert (ds + [d])[k] == ds[k];
        }
      }
    }

    /** One definition: a symbol and its relative address, entered in the
        table. */
    method ReadDef(modnum: int) returns (err: Option<ParseError>, ghost d: Def)
      requires pos <= |tokens| && defList == Table(defs)
      modifies this`pos, this`defList, this`defs
      ensures old(pos) <= pos <= |tokens|
      ensures err == None ==>
        && pos == Skip(old(pos), 2) && DefRead(old(pos), modnum, d)
        && defs == old(defs) + [d] && defList == Table(defs)
      ensures err != None ==> defs == old(defs) && defList == old(defList)
      ensures err == PairError(old(pos))
    {
      d := Def("", 0, modnum);
      var sym := ReadSym();
      if sym.Fail? {
        return Some(sym.error), d;
      }
      var val := ReadInt();
      if val.Fail? {
        return Some(val.error), d;
      }
      d := Def(sym.value, val.value, modnum);
      DefineSymbol(sym.value, val.value, modnum);
      err := None;
    }

    /** The definitions of module modnum follow those of the modules before. */
    lemma ModnumsAppend(p: seq<Def>, ds: seq<Def>, modnum: int)
      requires modnum >= 1 && DefsIn(p, modnum - 1)
      requires forall k :: 0 <= k < |ds| ==> ds[k].modnum == modnum
      ensures DefsIn(p + ds, modnum)
    {
    }

    lemma Associative(a: seq<Def>, b: seq<Def>, d: Def)
      ensures (a + b) + [d] == a + (b + [d])
    {
    }

    /** The use list of a module in pass one. */
    method ReadUses() returns (err: Option<ParseError>, uses: seq<string>)
      requires pos <= |tokens|
      modifies this`pos
      ensures old(pos) <= pos <= |tokens| && (old(pos) < |tokens| ==> old(pos) < pos)
      ensures CountRead(old(pos), MAX_USES, TooManyUses, err, |uses|)
      ensures err == None ==> pos == Skip(old(pos), 1 + CountAt(old(pos))) && UseListAt(old(pos), uses)
      ensures err == UsesError(old(pos))
    {
      ghost var p0 := pos;
      uses := [];
      var count := ReadInt();
      if count.Fail? {
        return Some(count.error), uses;
      }
      if count.value > MAX_USES {
        return Some(TooManyUses), uses;
      }
      var i := 0;
      while i < count.value
        invariant i <= count.value && |uses| == i && pos == Skip(p0, 1 + i)
        invariant forall k :: 0 <= k < i ==> uses[k] == Token(Skip(p0, 1 + k)) && SymbolOf(uses[k]).Ok?
        invariant SymsError(p0, 0, count.value) == SymsError(p0, i, count.value)
      {
        SymsErrorStep(p0, i, count.value);
        var sym := ReadSym();
        if sym.Fail? {
          return Some(sym.error), uses;
        }
        uses := uses + [sym.value];
        i := i + 1;
      }
      return None, uses;
    }

    /** The program text of a module in pass one, after total instructions of
        the earlier modules: TOO_MANY_INSTR when the machine would overflow;
        the instructions are only checked for their form. */
    method ReadCode(total: nat) returns (err: Option<ParseError>, count: nat)
      requires pos <= |tokens|
      modifies this`pos
      ensures old(pos) <= pos <= |tokens| && (old(pos) < |tokens| ==> old(pos) < pos)
      ensures CountRead(old(pos), MACHINE_SIZE - total, TooManyInstr, err, count)
      ensures err == None ==> pos == Skip(old(pos), 1 + 2 * CountAt(old(pos))) && CodeFormAt(old(pos), count)
      ensures err == CodeError(old(pos), total)
    {
      ghost var p0 := pos;
      count := 0;
      var r := ReadInt();
      if r.Fail? {
        return Some(r.error), count;
      }
      count := r.value;
      if total + count > MACHINE_SIZE {
        return Some(TooManyInstr), count;
      }
      var i := 0;
      while i < count
        invariant i <= count && pos == Skip(p0, 1 + 2 * i)
        invariant forall k :: 0 <= k < i ==> InstrRead(Skip(p0, 1 + 2 * k))
        invariant InstrsError(p0, 0, count) == InstrsError(p0, i, count)
      {
        ghost var q := pos;
        InstrsErrorStep(p0, i, count);
        var mode := ReadIaer();
        if mode.Fail? {
          return Some(mode.error), count;
        }
        var instr := ReadInt();
        if instr.Fail? {
          return Some(instr.error), count;
        }
        assert InstrRead(q);
        InstrsReadStep(p0, q, i);
        i := i + 1;
      }
      return None, count;
    }

    /** An instruction is read from the mode at token i and the number after it. */
    ghost predicate InstrRead(i: nat)
      requires i <= |tokens|
    {
      IsIaer(Token(i)) && AllDigits(Token(Skip(i, 1)))
    }

    /** One more instruction read after n of them keeps their positions. */
    lemma InstrsReadStep(p0: nat, q: nat, n: nat)
      requires p0 <= |tokens| && q == Skip(p0, 1 + 2 * n)
      requires forall k :: 0 <= k < n ==> InstrRead(Skip(p0, 1 + 2 * k))
      requires InstrRead(q)
      ensures forall k :: 0 <= k < n + 1 ==> InstrRead(Skip(p0, 1 + 2 * k))
    {
    }

    /** One module of pass one, placed at base: its definitions entered in
        the table, its use list and its size. */
    method ReadModule(modnum: int, base: nat) returns (err: Option<ParseError>, m: Module, ghost ds: seq<Def>)
      requires pos <= |tokens| && modnum >= 1 && base <= MACHINE_SIZE
      requires defList == Table(defs) && DefsIn(defs, modnum - 1)
      modifies this`pos, this`defList, this`defs
      ensures old(pos) <= pos <= |tokens| && (old(pos) < |tokens| ==> old(pos) < pos)
      ensures defList == Table(defs) && DefsIn(defs, modnum)
      ensures defs == old(defs) + ds && forall k :: 0 <= k < |ds| ==> ds[k].modnum == modnum
      ensures err == None ==>
        && pos == ModuleEnd(old(pos)) && ModuleRead(old(pos), modnum, ds, m)
        && m.base == base && base + m.size <= MACHINE_SIZE && |m.useList| <= MAX_USES
      ensures err == ModuleError(old(pos), base)
    {
      m := Module(base, 0, []);
      ghost var p := defs;
      err, ds := ReadDefs(modnum);
      ModnumsAppend(p, ds, modnum);
      if err != None {
        return;
      }
      var uses;
      err, uses := ReadUses();
      if err != None {
        return;
      }
      var count;
      err, count := ReadCode(base);
      if err != None {
        return;
      }
      m := Module(base, count, uses);
    }

    /** Rule 5 over the whole table: each symbol beyond its module is reset
        to relative address 0 with a warning, and every symbol gets its
        absolute address. */
    method Rule5()
      requires ModnumsIn(defList, |modList|)
      modifies this`defList, this`tooBig
      ensures LocatedUpTo(old(defList), defList, modList, |defList|)
      ensures tooBig == old(tooBig) + TooBigWarnings(old(defList), modList)
    {
      var tbl, warnings := LocateSymbols(defList, modList);
      defList, tooBig := tbl, tooBig + warnings;
    }

    /** What pass one keeps true after each module: the modules read lie one
        after another inside the machine, the table is that of their
        definitions, and they are the input's text up to pos. */
    ghost predicate ModulesRead()
      reads this
    {
      && pos == ModuleStart(|modList|) && ModulesParsed(defs, modList)
      && Bases(modList) && ModulesOk(modList) && TotalSize(modList) <= MACHINE_SIZE
      && defList == Table(defs) && DefsIn(defs, |modList|)
    }

    /** One module of pass one, placed at base, where the earlier ones end;
        its size is returned. */
    method NextModule(base: nat) returns (err: Option<ParseError>, size: nat)
      requires ModulesRead() && pos < |tokens| && base == TotalSize(modList)
      modifies this`pos, this`defList, this`defs, this`modList
      ensures old(pos) < pos <= |tokens|
      ensures err == None ==> ModulesRead() && |modList| == |old(modList)| + 1 && TotalSize(modList) == base + size
      ensures err == ModuleError(old(pos), base)
      ensures err == None ==> pos == ModuleEnd(old(pos)) && size == CountAt(CodeFrom(old(pos)))
    {
      var m;
      ghost var d0, ds := defs, [];
      err, m, ds := ReadModule(|modList| + 1, base);
      if err != None {
        return err, 0;
      }
      ParsedAppend(d0, modList, ds, m);
      BasesAppend(modList, m);
      ModulesAppend(modList, m);
      modList := modList + [m];
      size := m.size;
    }

    /** Pass one's loop: module after module until the input ends, each
        placed where the earlier ones end. */
    method ReadModules() returns (err: Option<ParseError>)
      requires pos == 0 && defList == [] && defs == [] && modList == []
      modifies this`pos, this`defList, this`defs, this`modList
      ensures err == None ==> pos == |tokens| && ModulesRead() && Parsed(defs, modList)
      ensures err == InputError(0, 0)
    {
      var n: nat := 0;
      var modnum := 1;
      while pos < |tokens|
        invariant pos <= |tokens| && modnum == |modList| + 1
        invariant n == TotalSize(modList) && ModulesRead()
        invariant InputError(0, 0) == InputError(pos, n)
        decreases |tokens| - pos
      {
        ghost var p, b := pos, n;
        var size;
        err, size := NextModule(n);
        if err != None {
          InputErrorStep(p, b);
          return;
        }
        n := n + size;
        InputErrorAdvance(p, b, pos, n);
        modnum := modnum + 1;
      }
      err := None;
    }

    /** passOne: the modules read until the input ends; then rule 5 locates
        every symbol. */
    method PassOne() returns (err: Option<ParseError>)
      requires pos == 0 && defList == [] && defs == [] && modList == [] && tooBig == []
      modifies this`pos, this`defList, this`defs, this`modList, this`tooBig
      ensures err == None ==> pos == |tokens| && LaidOut(defs, modList, defList, tooBig) && Parsed(defs, modList)
      ensures err == InputError(0, 0) && (err == None <==> TextFits(0, 0))
    {
      InputErrorNone(0, 0);
      err := ReadModules();
      if err != None {
        return;
      }
      assert ModulesRead();
      ModnumsOfTable(defs, |modList|);
      ghost var t := defList;
      Rule5();
      LaidOutIntro(defs, modList, t, defList, tooBig);
    }

    // -------------------------------------------------------------------------
    // Pass two

    /** The definition list read again in pass two: only the form is
        checked, and reading stops at the first error. */
    method SkipDefs() returns (err: Option<ParseError>)
      requires pos <= |tokens|
      modifies this`pos
      ensures old(pos) <= pos <= |tokens| && (old(pos) < |tokens| ==> old(pos) < pos)
      ensures !AllDigits(Token(old(pos))) ==> err == Some(NumExpected)
      ensures err == None <==> DefsFormAt(old(pos))
      ensures err == None ==> pos == UsesFrom(old(pos))
    {
      ghost var p0 := pos;
      var count := ReadInt();
      if count.Fail? {
        return Some(count.error);
      }
      var i := 0;
      err := None;
      while i < count.value && err == None
        invariant i <= count.value && count.value == CountAt(p0)
        invariant Skip(p0, 1 + 2 * i) <= pos <= |tokens| && (err == None ==> pos == Skip(p0, 1 + 2 * i))
        invariant forall k :: 0 <= k < i ==> DefPairAt(p0, k)
        invariant err != None ==> !DefsFormAt(p0)
        decreases count.value - i, if err == None then 1 else 0
      {
        var sym := ReadSym();
        if sym.Fail? {
          assert !DefPairAt(p0, i);
          err := Some(sym.error);
        } else {
          var val := ReadInt();
          if val.Fail? {
            assert !DefPairAt(p0, i);
            err := Some(val.error);
          } else {
            assert DefPairAt(p0, i);
            i := i + 1;
          }
        }
      }
    }

    /** The use list read again in pass two: only the form is checked, and
        reading stops at the first error. */
    method SkipUses() returns (err: Option<ParseError>)
      requires pos <= |tokens|
      modifies this`pos
      ensures old(pos) <= pos <= |tokens| && (old(pos) < |tokens| ==> old(pos) < pos)
      ensures !AllDigits(Token(old(pos))) ==> err == Some(NumExpected)
      ensures err == None <==> UsesFormAt(old(pos))
      ensures err == None ==> pos == Skip(old(pos), 1 + CountAt(old(pos)))
    {
      ghost var p0 := pos;
      var count := ReadInt();
      if count.Fail? {
        return Some(count.error);
      }
      var i := 0;
      err := None;
      while i < count.value && err == None
        invariant i <= count.value && count.value == CountAt(p0)
        invariant Skip(p0, 1 + i) <= pos <= |tokens| && (err == None ==> pos == Skip(p0, 1 + i))
        invariant forall k :: 0 <= k < i ==> SymbolOf(UseToken(p0, k)).Ok?
        invariant err != None ==> !UsesFormAt(p0)
        decreases count.value - i, if err == None then 1 else 0
      {
        var sym := ReadSym();
        if sym.Fail? {
          assert !SymbolOf(UseToken(p0, i)).Ok?;
          err := Some(sym.error);
        } else {
          i := i + 1;
        }
      }
    }

    /** One instruction of module mi: the word of the memory map, looked up
        in the table as it was after pass one (tbl0: only used flags have
        changed since). An E instruction naming a defined symbol marks it
        used; marked says whether the instruction names a use-list entry. */
    method Resolve(mode: Mode, instr: nat, mi: nat, ghost tbl0: seq<Symbol>) returns (e: Entry, marked: bool)
      requires mi < |modList| && SameLayout(tbl0, defList)
      modifies this`defList
      ensures SameLayout(tbl0, defList)
      ensures e == Relocate(mode, instr, modList[mi], tbl0)
      ensures marked == ExternalRef(mode, instr, modList[mi])
      ensures forall i :: 0 <= i < |defList| ==>
        (defList[i].used <==> old(defList)[i].used || Refers(Instr(mode, instr, mi), modList, tbl0, i))
    {
      var m := modList[mi];
      RelocateLayout(mode, instr, m, tbl0, defList);
      var opcode, operand := instr / 1000, instr % 1000;
      marked := false;
      match mode {
        case I =>
          e := if instr > 9999 then Entry(9999, IllegalImmediate) else Entry(instr, NoError);
        case A =>
          if opcode > 9 {
            e := Entry(9999, IllegalOpcode);
          } else if operand > 511 {
            e := Entry(opcode * 1000, AbsTooBig);
          } else {
            e := Entry(instr, NoError);
          }
        case E =>
          if opcode > 9 {
            e := Entry(9999, IllegalOpcode);
          } else if operand >= |m.useList| {
            e := Entry(instr, ExtTooBig);
          } else {
            var sym := m.useList[operand];
            marked := true;
            var index := FindSymbol(defList, sym);
            assert SameNames(tbl0, defList);
            SameNamesIndex(tbl0, defList, sym);
            if index == -1 {
              e := Entry(opcode * 1000, Undefined(sym));
            } else {
              e := Entry(opcode * 1000 + defList[index].absAddr, NoError);
              defList := defList[index := defList[index].(used := true)];
            }
          }
        case R =>
          if opcode > 9 {
            e := Entry(9999, IllegalOpcode);
          } else if operand > m.size - 1 {
            e := Entry(opcode * 1000 + m.base, RelTooBig);
          } else {
            e := Entry(opcode * 1000 + operand + m.base, NoError);
          }
      }
    }

    /** The program text of module mi in pass two: each instruction is
        relocated into the memory map; flags records which use-list entries
        the module's instructions name. Reading stops at the first error. */
    method LinkCode(mi: nat, ghost tbl0: seq<Symbol>) returns (err: Option<ParseError>, flags: seq<bool>)
      requires pos <= |tokens| && mi < |modList| && Linked(tbl0, defList, modList, code, memoryMap)
      modifies this`pos, this`defList, this`memoryMap, this`code
      ensures old(pos) <= pos <= |tokens| && Linked(tbl0, defList, modList, code, memoryMap)
      ensures |old(code)| <= |code| && code == old(code) + code[|old(code)|..]
      ensures forall k :: |old(code)| <= k < |code| ==> code[k].modIndex == mi
      ensures FlagsOk(flags, code, |old(code)|, modList, mi)
      ensures !AllDigits(Token(old(pos))) ==> err == Some(NumExpected)
      ensures err == None <==> CodeFormAt(old(pos), CountAt(old(pos)))
      ensures err == None ==>
        pos == Skip(old(pos), 1 + 2 * CountAt(old(pos))) && CodeAt(old(pos), mi, code[|old(code)|..])
    {
      ghost var p0, c0 := pos, code;
      flags := seq(|modList[mi].useList|, j => false);
      var count := ReadInt();
      if count.Fail? {
        return Some(count.error), flags;
      }
      err, flags := LinkInstrs(p0, count.value, mi, tbl0, flags);
      InstrsAtModule(p0, c0, code, mi);
      if err == None {
        InstrsAtCode(p0, c0, code, mi);
      }
    }

    /** The count instructions of the program text at p0, whose count has
        been read, each relocated into the memory map. Reading stops at the
        first error. */
    method LinkInstrs(ghost p0: nat, count: nat, mi: nat, ghost tbl0: seq<Symbol>, flags0: seq<bool>)
      returns (err: Option<ParseError>, flags: seq<bool>)
      requires p0 <= |tokens| && pos == Skip(p0, 1) && count == CountAt(p0) && mi < |modList|
      requires Linked(tbl0, defList, modList, code, memoryMap) && FlagsOk(flags0, code, |code|, modList, mi)
      modifies this`pos, this`defList, this`memoryMap, this`code
      ensures p0 <= pos <= |tokens| && Linked(tbl0, defList, modList, code, memoryMap)
      ensures |old(code)| <= |code| && code == old(code) + code[|old(code)|..]
      ensures FlagsOk(flags, code, |old(code)|, modList, mi)
      ensures forall k :: 0 <= k < |code| - |old(code)| ==> InstrAt(Skip(p0, 1 + 2 * k), mi, code[|old(code)| + k])
      ensures err == None ==> |code| == |old(code)| + count && pos == Skip(p0, 1 + 2 * count)
      ensures err != None ==> !CodeFormAt(p0, count)
    {
      ghost var c0 := code;
      flags := flags0;
      var i := 0;
      err := None;
      while i < count && err == None
        invariant p0 <= pos <= |tokens| && Linked(tbl0, defList, modList, code, memoryMap)
        invariant |c0| <= |code| && code[..|c0|] == c0
        invariant FlagsOk(flags, code, |c0|, modList, mi)
        invariant i <= count && |code| == |c0| + i
        invariant forall k :: 0 <= k < i ==> InstrAt(Skip(p0, 1 + 2 * k), mi, code[|c0| + k])
        invariant err == None ==> pos == Skip(p0, 1 + 2 * i)
        invariant err != None ==> !CodeFormAt(p0, count)
        decreases count - i, if err == None then 1 else 0
      {
        ghost var before := code;
        err, flags := LinkInstr(mi, tbl0, |c0|, flags);
        if err == None {
          InstrsAtStep(p0, c0, before, code, i, mi);
          i := i + 1;
        } else {
          assert !InstrRead(Skip(p0, 1 + 2 * i));
        }
      }
    }

    /** The instructions read after c0 belong to module mi. */
    lemma InstrsAtModule(p0: nat, c0: seq<Instr>, code: seq<Instr>, mi: nat)
      requires p0 <= |tokens| && |c0| <= |code|
      requires forall k :: 0 <= k < |code| - |c0| ==> InstrAt(Skip(p0, 1 + 2 * k), mi, code[|c0| + k])
      ensures forall k :: |c0| <= k < |code| ==> code[k].modIndex == mi
    {
      forall k | |c0| <= k < |code|
        ensures code[k].modIndex == mi
      {
        assert InstrAt(Skip(p0, 1 + 2 * (k - |c0|)), mi, code[|c0| + (k - |c0|)]);
      }
    }

    /** One more instruction read after i of them keeps their positions. */
    lemma InstrsAtStep(p0: nat, c0: seq<Instr>, code: seq<Instr>, code': seq<Instr>, i: nat, mi: nat)
      requires p0 <= |tokens| && |code| == |c0| + i
      requires forall k :: 0 <= k < i ==> InstrAt(Skip(p0, 1 + 2 * k), mi, code[|c0| + k])
      requires |code'| == |code| + 1 && code'[..|code|] == code
      requires InstrAt(Skip(p0, 1 + 2 * i), mi, code'[|code|])
      ensures forall k :: 0 <= k < i + 1 ==> InstrAt(Skip(p0, 1 + 2 * k), mi, code'[|c0| + k])
    {
      forall k | 0 <= k < i + 1
        ensures InstrAt(Skip(p0, 1 + 2 * k), mi, code'[|c0| + k])
      {
        if k < i {
          assert code'[|c0| + k] == code[|c0| + k];
        }
      }
    }

    /** The instructions read after c0 are the program text at p0. */
    lemma InstrsAtCode(p0: nat, c0: seq<Instr>, code: seq<Instr>, mi: nat)
      requires p0 <= |tokens| && |c0| <= |code| && CountIs(p0, |code| - |c0|)
      requires forall k :: 0 <= k < |code| - |c0| ==> InstrAt(Skip(p0, 1 + 2 * k), mi, code[|c0| + k])
      ensures CodeAt(p0, mi, code[|c0|..])
    {
      var cs := code[|c0|..];
      forall k | 0 <= k < |cs|
        ensures InstrAt(Skip(p0, 1 + 2 * k), mi, cs[k])
      {
        assert cs[k] == code[|c0| + k];
      }
    }

    /** One instruction of module mi in pass two. */
    method LinkInstr(mi: nat, ghost tbl0: seq<Symbol>, ghost lo: nat, flags: seq<bool>) returns (err: Option<ParseError>, flags': seq<bool>)
      requires pos <= |tokens| && mi < |modList| && lo <= |code|
      requires Linked(tbl0, defList, modList, code, memoryMap) && FlagsOk(flags, code, lo, modList, mi)
      modifies this`pos, this`defList, this`memoryMap, this`code
      ensures old(pos) <= pos <= |tokens| && Linked(tbl0, defList, modList, code, memoryMap)
      ensures FlagsOk(flags', code, lo, modList, mi)
      ensures err == None <==> InstrRead(old(pos))
      ensures err == None ==>
        && pos == Skip(old(pos), 2) && |code| == |old(code)| + 1 && code[..|old(code)|] == old(code)
        && InstrAt(old(pos), mi, code[|old(code)|])
      ensures err != None ==> code == old(code)
    {
      flags' := flags;
      var mode := ReadIaer();
      if mode.Fail? {
        return Some(mode.error), flags';
      }
      var instr := ReadInt();
      if instr.Fail? {
        return Some(instr.error), flags';
      }
      var c := Instr(mode.value, instr.value, mi);
      ghost var t, cs, words := defList, code, memoryMap;
      var e, marked := Resolve(c.mode, c.instr, mi, tbl0);
      if marked {
        flags' := flags'[Operand(c.instr) := true];
      }
      code := code + [c];
      memoryMap := memoryMap + [e];
      LinkedAppend(tbl0, t, defList, modList, cs, words, c, e);
      FlagsAppend(flags, flags', cs, lo, modList, mi, c);
      err := None;
    }

    /** Rule 7 for module number modnum: a warning for each use-list entry
        whose flag is clear. */
    method ReportUnusedUses(modnum: int, uses: seq<string>, flags: seq<bool>)
      requires |flags| == |uses|
      modifies this`unusedUses
      ensures unusedUses == old(unusedUses) + UnusedUses(modnum, uses, flags)
    {
      var warnings := UnusedUseWarnings(modnum, uses, flags);
      unusedUses := unusedUses + warnings;
    }

    /** Rule 4: a warning for each symbol never used. */
    method ReportUnusedDefs()
      modifies this`unusedDefs
      ensures unusedDefs == old(unusedDefs) + UnusedDefs(defList)
    {
      var warnings := UnusedDefWarnings(defList);
      unusedDefs := unusedDefs + warnings;
    }

    /** Pass two over one module: skip its definition and use lists, relocate
        its instructions and report its unused use-list entries. Reading
        stops at the first error. */
    method PassTwoModule(mi: nat, ghost tbl0: seq<Symbol>) returns (err: Option<ParseError>)
      requires pos <= |tokens| && mi < |modList| && Linked(tbl0, defList, modList, code, memoryMap)
      requires forall k :: 0 <= k < |code| ==> code[k].modIndex < mi
      requires unusedUses == UseWarnings(code, modList, mi)
      modifies this`pos, this`defList, this`memoryMap, this`code, this`unusedUses
      ensures old(pos) <= pos <= |tokens| && (old(pos) < |tokens| ==> old(pos) < pos)
      ensures Linked(tbl0, defList, modList, code, memoryMap)
      ensures err == None <==> ModuleForm(old(pos))
      ensures err == None ==>
        && pos == ModuleEnd(old(pos)) && |old(code)| <= |code| && code == old(code) + code[|old(code)|..]
        && CodeAt(CodeFrom(old(pos)), mi, code[|old(code)|..])
        && unusedUses == UseWarnings(code, modList, mi + 1)
    {
      ghost var p := pos;
      err := SkipLists();
      if err != None {
        return;
      }
      ghost var c0 := code;
      var flags;
      err, flags := LinkCode(mi, tbl0);
      if err != None {
        assert !CodeFormAt(CodeFrom(p), CountAt(CodeFrom(p)));
        return;
      }
      assert pos == ModuleEnd(p);
      UseWarningsStep(c0, code, modList, mi, flags);
      ReportUnusedUses(mi + 1, modList[mi].useList, flags);
    }

    /** The definition and use lists of a module read again in pass two. */
    method SkipLists() returns (err: Option<ParseError>)
      requires pos <= |tokens|
      modifies this`pos
      ensures old(pos) <= pos <= |tokens| && (old(pos) < |tokens| ==> old(pos) < pos)
      ensures err == None <==> DefsFormAt(old(pos)) && UsesFormAt(UsesFrom(old(pos)))
      ensures err == None ==> pos == CodeFrom(old(pos))
    {
      err := SkipDefs();
      if err != None {
        return;
      }
      err := SkipUses();
    }

    /** passTwo: the input read again, module after module (as many as pass
        one laid out), relocating every instruction against the table of
        pass one and giving rule 7's warnings after each module and rule 4's
        at the end. n is the number of modules read; on an error, module n
        is the one whose text is malformed. */
    method PassTwo() returns (err: Option<ParseError>, ghost n: nat)
      requires pos == 0 && code == [] && memoryMap == [] && unusedUses == [] && unusedDefs == []
      requires forall i :: 0 <= i < |defList| ==> !defList[i].used
      modifies this`pos, this`defList, this`memoryMap, this`code, this`unusedUses, this`unusedDefs
      ensures n <= |modList| && Linked(old(defList), defList, modList, code, memoryMap)
      ensures forall k :: 0 <= k < n ==> ModuleWellFormed(k)
      ensures err != None ==> n < |modList| && !ModuleWellFormed(n)
      ensures err == None ==>
        && (n == |modList| || ModuleStart(n) == |tokens|) && pos == ModuleStart(n) && CodeRead(code, n)
        && unusedUses == UseWarnings(code, modList, n) && unusedDefs == UnusedDefs(defList)
    {
      ghost var tbl0 := defList;
      assert ModulesLinked(tbl0, 0);
      err, n := LinkModules(tbl0);
      if err == None {
        ReportUnusedDefs();
      }
    }

    /** What pass two keeps true after the first mi modules: they are linked
        and well formed, their instructions are those of their program texts,
        their unused entries are reported, and the next module starts at pos. */
    ghost predicate ModulesLinked(tbl0: seq<Symbol>, mi: nat)
      reads this
    {
      && mi <= |modList| && Linked(tbl0, defList, modList, code, memoryMap)
      && WellFormedUpTo(mi) && pos == ModuleStart(mi) && CodeRead(code, mi)
      && unusedUses == UseWarnings(code, modList, mi)
    }

    /** The texts of the first n modules have the form pass two checks. */
    ghost predicate WellFormedUpTo(n: nat)
    {
      forall k :: 0 <= k < n ==> ModuleWellFormed(k)
    }

    /** Pass two's state after modules 0 to mi - 1: linked, or stopped at
        malformed module mi. */
    ghost predicate LinkState(tbl0: seq<Symbol>, mi: nat, err: Option<ParseError>)
      reads this
    {
      && mi <= |modList| && Linked(tbl0, defList, modList, code, memoryMap) && WellFormedUpTo(mi)
      && (err != None ==> mi < |modList| && !ModuleWellFormed(mi))
      && (err == None ==> ModulesLinked(tbl0, mi))
    }

    /** Pass two's loop: module after module while input and modules remain,
        stopping at the first malformed one. */
    method LinkModules(ghost tbl0: seq<Symbol>) returns (err: Option<ParseError>, ghost n: nat)
      requires ModulesLinked(tbl0, 0)
      modifies this`pos, this`defList, this`memoryMap, this`code, this`unusedUses
      ensures LinkState(tbl0, n, err)
      ensures err == None ==> (n == |modList| || pos == |tokens|)
    {
      var mi := 0;
      while pos < |tokens| && mi < |modList|
        invariant ModulesLinked(tbl0, mi)
        decreases |tokens| - pos
      {
        err := LinkNextModule(mi, tbl0);
        if err != None {
          return err, mi;
        }
        mi := mi + 1;
      }
      return None, mi;
    }

    /** One iteration of pass two's loop: module mi is linked, or found
        malformed. */
    method LinkNextModule(mi: nat, ghost tbl0: seq<Symbol>) returns (err: Option<ParseError>)
      requires ModulesLinked(tbl0, mi) && pos < |tokens| && mi < |modList|
      modifies this`pos, this`defList, this`memoryMap, this`code, this`unusedUses
      ensures old(pos) < pos <= |tokens| && Linked(tbl0, defList, modList, code, memoryMap)
      ensures err != None ==> !ModuleWellFormed(mi)
      ensures err == None ==> ModulesLinked(tbl0, mi + 1) && WellFormedUpTo(mi + 1)
    {
      ghost var c0 := code;
      err := PassTwoModule(mi, tbl0);
      if err == None {
        assert ModuleWellFormed(mi);
        forall k | 0 <= k < mi + 1
          ensures ModuleWellFormed(k)
        {
        }
        CodeReadAppend(c0, mi, code[|c0|..]);
      }
    }

    /** Pass two over the input pass one has laid out, with located pass
        one's table: it reads every module pass one read, cannot meet a
        malformed one, and yields pass two's specification. */
    method LinkLaidOut(ghost located: seq<Symbol>) returns (ghost n: nat)
      requires defList == located && LaidOut(defs, modList, located, tooBig) && Parsed(defs, modList)
      requires code == [] && memoryMap == [] && unusedUses == [] && unusedDefs == []
      modifies this`pos, this`defList, this`memoryMap, this`code, this`unusedUses, this`unusedDefs
      ensures n == |modList| && Resolved(defs, modList, defList, code, memoryMap) && CodeRead(code, n)
      ensures unusedUses == UseWarnings(code, modList, n) && unusedDefs == UnusedDefs(defList)
    {
      ghost var d, mods, w := defs, modList, tooBig;
      LaidOutUnused(d, mods, located, w);
      ParsedForm(d, mods);
      pos := 0;
      n := PassTwoComplete();
      LinkResult(d, mods, located, w, defList, code, memoryMap);
    }

    /** Pass two over an input that ends after the modules pass one built,
        each of them well formed: it cannot fail, and it reads them all. */
    method PassTwoComplete() returns (ghost n: nat)
      requires forall k :: 0 <= k < |modList| ==> ModuleStart(k) < |tokens| && ModuleWellFormed(k)
      requires ModuleStart(|modList|) == |tokens|
      requires pos == 0 && code == [] && memoryMap == [] && unusedUses == [] && unusedDefs == []
      requires forall i :: 0 <= i < |defList| ==> !defList[i].used
      modifies this`pos, this`defList, this`memoryMap, this`code, this`unusedUses, this`unusedDefs
      ensures n == |modList| && Linked(old(defList), defList, modList, code, memoryMap) && CodeRead(code, n)
      ensures unusedUses == UseWarnings(code, modList, n) && unusedDefs == UnusedDefs(defList)
    {
      var err;
      err, n := PassTwo();
      assert err == None && n == |modList|;
    }

    /** On the input "0 0 1 I 5", what pass two read from the only module's
        program text is the one instruction I 5. */
    lemma OneCode(code: seq<Instr>)
      requires tokens == ["0", "0", "1", "I", "5"]
      requires CodeFrom(ModuleStart(0)) == 2 && CodeRead(code, 1)
      ensures code == [Instr(I, 5, 0)]
    {
      assert ModuleCode(code, 0);
      CodeOfAppend([], code, 0, 0);
      assert [] + code == code;
      OneInstruction(code);
    }

    /** "0 0 1 I 5" is read by pass one without error. */
    lemma OneFits()
      requires tokens == ["0", "0", "1", "I", "5"]
      ensures InputError(0, 0) == None
    {
      assert CountAt(0) == 0 && UsesFrom(0) == 1 && CountAt(1) == 0 && CodeFrom(0) == 2;
      assert CountAt(2) == 1 && InstrError(3) == None && InstrsError(2, 0, 1) == None;
      assert ModuleError(0, 0) == None && ModuleEnd(0) == 5;
      InputErrorStep(0, 0);
    }

    /** The input "0 0 1 I 5" is the text of one module. */
    lemma OneModule(defs: seq<Def>, mods: seq<Module>)
      requires tokens == ["0", "0", "1", "I", "5"] && Parsed(defs, mods)
      ensures |mods| == 1 && CodeFrom(ModuleStart(0)) == 2
    {
      assert DecimalValue("0") == 0 && DecimalValue("1") == 1;
      assert CountAt(0) == 0 && CountAt(1) == 0 && CountAt(2) == 1;
      assert ModuleStart(1) == ModuleEnd(0) == 5;
      assert 1 < |mods| ==> ModuleParsed(defs, 1, mods[1]);
    }

    /** The program text "1 I 5" at token 2 is the one instruction I 5. */
    lemma OneInstruction(code: seq<Instr>)
      requires tokens == ["0", "0", "1", "I", "5"] && CodeAt(2, 0, code)
      ensures code == [Instr(I, 5, 0)]
    {
      assert DecimalValue("1") == 1 && DecimalValue("5") == 5;
      assert InstrAt(3, 0, code[0]);
    }

    /** parse: pass one, then pass two over the same input. On success the
        input is the text of the modules pass one laid out and pass one's
        table (located) is laid out by rule 5; in the final table every
        symbol is marked used exactly when an instruction refers to it, every
        instruction read from the program texts has its word relocated
        against it, and the warnings are those of rules 5, 7 and 4. An error
        can only come from pass one, before any word is written. n is the
        number of modules pass two read. */
    method Link() returns (err: Option<ParseError>, ghost n: nat, ghost located: seq<Symbol>)
      requires pos == 0 && defList == [] && defs == [] && modList == [] && tooBig == []
      requires code == [] && memoryMap == [] && unusedUses == [] && unusedDefs == []
      modifies this`pos, this`defList, this`defs, this`modList, this`tooBig
      modifies this`memoryMap, this`code, this`unusedUses, this`unusedDefs
      ensures err == None ==> LaidOut(defs, modList, located, tooBig) && Parsed(defs, modList)
      ensures err == None ==> Resolved(defs, modList, defList, code, memoryMap) && CodeRead(code, n)
      ensures err == None ==> n == |modList| && unusedUses == UseWarnings(code, modList, n) && unusedDefs == UnusedDefs(defList)
      ensures err != None ==> code == [] && memoryMap == []
      ensures err == InputError(0, 0) && (err == None <==> TextFits(0, 0))
    {
      n, located := 0, [];
      err := PassOne();
      if err != None {
        return;
      }
      located := defList;
      n := LinkLaidOut(located);
    }
  }

  /** The input "0 0 1 I 5": one module without definitions or uses whose
      one instruction is the immediate 5. Linked without error, its memory
      map is the single word 5. */
  method LinkOneImmediate() returns (err: Option<ParseError>, words: seq<Entry>)
    ensures err == None && words == [Entry(5, NoError)]
  {
    var p := new Parser(["0", "0", "1", "I", "5"]);
    p.OneFits();
    ghost var n, located;
    err, n, located := p.Link();
    words := p.memoryMap;
    if err == None {
      p.OneModule(p.defs, p.modList);
      p.OneCode(p.code);
      assert words[0] == Relocate(I, 5, p.modList[0], p.defList);
    }
  }

  /** The loop of rule 5 on the symbol table t0 and the modules mods. */
  method LocateSymbols(t0: seq<Symbol>, mods: seq<Module>) returns (tbl: seq<Symbol>, warnings: seq<Warning>)
    requires ModnumsIn(t0, |mods|)
    ensures LocatedUpTo(t0, tbl, mods, |t0|)
    ensures warnings == TooBigWarnings(t0, mods)
  {
    tbl, warnings := t0, [];
    var i := 0;
    while i < |tbl|
      invariant LocatedUpTo(t0, tbl, mods, i)
      invariant ModnumsIn(t0[..i], |mods|) && warnings == TooBigWarnings(t0[..i], mods)
    {
      TooBigStep(t0, mods, i);
      var symbol := tbl[i];
      var m := mods[symbol.modnum - 1];
      var rel := symbol.relAddr;
      if rel > m.size - 1 {
        warnings := warnings + [TooBig(symbol.modnum, symbol.sym, rel, m.size - 1)];
        rel := 0;
      }
      var located := symbol.(relAddr := rel, absAddr := m.base + rel);
      assert located == Located(t0[i], m);
      LocatedStep(t0, tbl, mods, i);
      tbl := tbl[i := located];
      i := i + 1;
    }
    assert t0[..i] == t0;
  }

  /** The loop of rule 7 over one module's use list. */
  method UnusedUseWarnings(modnum: int, uses: seq<string>, flags: seq<bool>) returns (warnings: seq<Warning>)
    requires |flags| == |uses|
    ensures warnings == UnusedUses(modnum, uses, flags)
  {
    warnings := [];
    var i := 0;
    while i < |uses|
      invariant i <= |uses| && warnings == UnusedUses(modnum, uses[..i], flags[..i])
    {
      assert uses[..i + 1][..i] == uses[..i] && flags[..i + 1][..i] == flags[..i];
      if !flags[i] {
        warnings := warnings + [UnusedUse(modnum, uses[i])];
      }
      i := i + 1;
    }
    assert uses[..i] == uses && flags[..i] == flags;
  }

  /** The loop of rule 4 over the symbol table. */
  method UnusedDefWarnings(tbl: seq<Symbol>) returns (warnings: seq<Warning>)
    ensures warnings == UnusedDefs(tbl)
  {
    warnings := [];
    var i := 0;
    while i < |tbl|
      invariant i <= |tbl| && warnings == UnusedDefs(tbl[..i])
    {
      assert tbl[..i + 1][..i] == tbl[..i];
      if !tbl[i].used {
        warnings := warnings + [UnusedDef(tbl[i].modnum, tbl[i].sym)];
      }
      i := i + 1;
    }
    assert tbl[..i] == tbl;
  }
}
