/** The values of the two-pass linker: token classes, the symbol table built
    in pass one, module layout, and the relocation of one instruction in
    pass two. */
module LinkerTables {

  const MAX_SYMBOL_LENGTH: nat := 16
  const MAX_DEFS: nat := 16
  const MAX_USES: nat := 16
  /** The machine has 512 words; it is also the limit on the total number of
      instructions. */
  const MACHINE_SIZE: nat := 512
  /** On a 64-bit target std::vector::size() is a 64-bit unsigned value. */
  const SIZE_T_MODULUS: nat := 0x1_0000_0000_0000_0000

  /** The parse errors, in the order of their codes 0 to 6. */
  datatype ParseError =
    | NumExpected
    | SymExpected
    | AddrExpected
    | SymTooLong
    | TooManyDefs
    | TooManyUses
    | TooManyInstr

  /** What a read of one token yields: its value, or the parse error that
      ends the run. */
  datatype Read<T> = Ok(value: T) | Fail(error: ParseError)

  // ---------------------------------------------------------------------------
  // Token classes (the C locale's character classes)

  predicate IsDigit(c: char) { '0' <= c <= '9' }

  predicate IsAlpha(c: char) { ('a' <= c <= 'z') || ('A' <= c <= 'Z') }

  predicate IsAlnum(c: char) { IsAlpha(c) || IsDigit(c) }

  /** The character at index 0 of a token; for the empty token that is the
      string's terminating NUL. */
  function Head(token: string): char
  {
    if token == "" then '\0' else token[0]
  }

  /** Every character is a digit (so the empty token qualifies). */
  predicate AllDigits(token: string)
  {
    forall i :: 0 <= i < |token| ==> IsDigit(token[i])
  }

  /** A letter followed by letters and digits. */
  predicate SymbolShaped(token: string)
  {
    IsAlpha(Head(token)) && forall i :: 1 <= i < |token| ==> IsAlnum(token[i])
  }

  /** isInt: the scan stops at the first non-digit. */
  method IsInt(token: string) returns (b: bool)
    ensures b <==> AllDigits(token)
  {
    var i := 0;
    while i < |token|
      invariant 0 <= i <= |token|
      invariant forall k :: 0 <= k < i ==> IsDigit(token[k])
    {
      if !IsDigit(token[i]) {
        return false;
      }
      i := i + 1;
    }
    return true;
  }

  /** isSym: a letter first, then the scan stops at the first character that
      is neither letter nor digit. */
  method IsSym(token: string) returns (b: bool)
    ensures b <==> SymbolShaped(token)
  {
    if !IsAlpha(Head(token)) {
      return false;
    }
    var i := 1;
    while i < |token|
      invariant 1 <= i <= |token| || (token == "" && i == 1)
      invariant forall k :: 1 <= k < i && k < |token| ==> IsAlnum(token[k])
    {
      if !IsAlnum(token[i]) {
        return false;
      }
      i := i + 1;
    }
    return true;
  }

  /** The four addressing modes: immediate, absolute, external, relative. */
  datatype Mode = I | A | E | R

  /** isIAER looks at the first character only. */
  function IsIaer(token: string): (b: bool)
    ensures b <==> |token| > 0 && token[0] in "IAER"
  {
    IsIaerChar(Head(token))
  }

  predicate IsIaerChar(c: char)
  {
    c == 'I' || c == 'A' || c == 'E' || c == 'R'
  }

  function ModeOf(c: char): Mode
    requires IsIaerChar(c)
  {
    if c == 'I' then I else if c == 'A' then A else if c == 'E' then E else R
  }

  /** atoi of a string of digits. */
  function DecimalValue(token: string): nat
    requires AllDigits(token)
  {
    if token == "" then 0
    else 10 * DecimalValue(token[..|token| - 1]) + ((token[|token| - 1] as int) - ('0' as int))
  }

  /** readSym's two checks, in their order: the shape first, then the length. */
  function SymbolOf(token: string): (r: Read<string>)
    ensures r.Ok? <==> SymbolShaped(token) && |token| <= MAX_SYMBOL_LENGTH
    ensures r.Ok? ==> r.value == token
    ensures !SymbolShaped(token) ==> r == Fail(SymExpected)
    ensures SymbolShaped(token) && |token| > MAX_SYMBOL_LENGTH ==> r == Fail(SymTooLong)
  {
    if !SymbolShaped(token) then Fail(SymExpected)
    else if |token| > MAX_SYMBOL_LENGTH then Fail(SymTooLong)
    else Ok(token)
  }

  // ---------------------------------------------------------------------------
  // The symbol table of pass one

  /** A definition as read: symbol, relative address, module number (from 1). */
  datatype Def = Def(sym: string, val: nat, modnum: int)

  datatype Symbol = Symbol(sym: string, relAddr: int, absAddr: int, modnum: int, defined: int, used: bool)

  /** A module: where it starts, how many instructions it has, and the
      symbols of its use list. */
  datatype Module = Module(base: int, size: int, useList: seq<string>)

  /** The index of the first entry named sym, or -1. */
  function IndexOf(tbl: seq<Symbol>, sym: string): (i: int)
    ensures -1 <= i < |tbl|
    ensures i == -1 ==> forall k :: 0 <= k < |tbl| ==> tbl[k].sym != sym
    ensures i >= 0 ==> tbl[i].sym == sym && forall k :: 0 <= k < i ==> tbl[k].sym != sym
  {
    if tbl == [] then -1
    else if tbl[0].sym == sym then 0
    else
      var j := IndexOf(tbl[1..], sym);
      if j == -1 then -1 else j + 1
  }

  /** The linear search of the definition list. */
  method FindSymbol(tbl: seq<Symbol>, sym: string) returns (index: int)
    ensures index == IndexOf(tbl, sym)
  {
    index := 0;
    while index < |tbl|
      invariant 0 <= index <= |tbl|
      invariant forall k :: 0 <= k < index ==> tbl[k].sym != sym
    {
      if tbl[index].sym == sym {
        return;
      }
      index := index + 1;
    }
    index := -1;
  }

  /** One definition entered in the table: a new symbol is appended; a known
      one keeps its entry and counts one more definition. */
  function Define(tbl: seq<Symbol>, d: Def): seq<Symbol>
  {
    var i := IndexOf(tbl, d.sym);
    if i == -1 then tbl + [Symbol(d.sym, d.val, 0, d.modnum, 1, false)]
    else tbl[i := tbl[i].(defined := tbl[i].defined + 1)]
  }

  /** The table after a run of definitions. */
  function Table(defs: seq<Def>): seq<Symbol>
  {
    if defs == [] then [] else Define(Table(defs[..|defs| - 1]), defs[|defs| - 1])
  }

  /** How many of the definitions name sym. */
  function Count(defs: seq<Def>, sym: string): nat
  {
    if defs == [] then 0
    else Count(defs[..|defs| - 1], sym) + (if defs[|defs| - 1].sym == sym then 1 else 0)
  }

  /** The index of the first definition of sym, or -1. */
  function FirstOf(defs: seq<Def>, sym: string): (f: int)
    ensures -1 <= f < |defs|
  {
    if defs == [] then -1
    else
      var f := FirstOf(defs[..|defs| - 1], sym);
      if f >= 0 then f else if defs[|defs| - 1].sym == sym then |defs| - 1 else -1
  }

  lemma {:induction false} FirstOfSpec(defs: seq<Def>, sym: string)
    ensures FirstOf(defs, sym) >= 0 ==> defs[FirstOf(defs, sym)].sym == sym && Count(defs, sym) >= 1
    ensures FirstOf(defs, sym) == -1 ==> Count(defs, sym) == 0 && forall k :: 0 <= k < |defs| ==> defs[k].sym != sym
  {
    if defs != [] {
      var p := defs[..|defs| - 1];
      FirstOfSpec(p, sym);
      assert forall k :: 0 <= k < |p| ==> defs[k] == p[k];
    }
  }

  /** Entries have distinct names. */
  ghost predicate Unique(tbl: seq<Symbol>)
  {
    forall i, j :: 0 <= i < j < |tbl| ==> tbl[i].sym != tbl[j].sym
  }

  /** Entry e is what the definitions make of its symbol: the first
      definition's value and module, a count of all definitions, no address
      yet and no use. */
  ghost predicate Summarises(defs: seq<Def>, e: Symbol)
  {
    var f := FirstOf(defs, e.sym);
    && f >= 0
    && e.relAddr == defs[f].val
    && e.modnum == defs[f].modnum
    && e.defined == Count(defs, e.sym)
    && e.absAddr == 0
    && !e.used
  }

  /** t is the table of defs as TableSpec describes it. */
  ghost predicate TableOk(defs: seq<Def>, t: seq<Symbol>)
  {
    && Unique(t)
    && (forall k :: 0 <= k < |defs| ==> IndexOf(t, defs[k].sym) >= 0)
    && (forall i :: 0 <= i < |t| ==> Summarises(defs, t[i]))
  }

  /** How FirstOf, Count and the table change with the last definition read. */
  lemma {:induction false} DefsStep(defs: seq<Def>)
    requires defs != []
    ensures var p, d := defs[..|defs| - 1], defs[|defs| - 1];
      && (forall s :: FirstOf(defs, s) == (if FirstOf(p, s) >= 0 then FirstOf(p, s) else if d.sym == s then |p| else -1))
      && (forall s :: Count(defs, s) == Count(p, s) + (if d.sym == s then 1 else 0))
      && Table(defs) == Define(Table(p), d)
      && (forall k :: 0 <= k < |p| ==> defs[k] == p[k])
  {
  }

  /** A new symbol: its entry is appended, summarising its one definition. */
  lemma {:induction false} AppendOk(defs: seq<Def>, p: seq<Def>, d: Def, t: seq<Symbol>, t': seq<Symbol>)
    requires defs != [] && p == defs[..|defs| - 1] && d == defs[|defs| - 1]
    requires TableOk(p, t) && IndexOf(t, d.sym) == -1 && t' == Define(t, d)
    ensures TableOk(defs, t')
  {
    DefineFresh(t, d);
    FirstOfSpec(p, d.sym);
    assert FirstOf(p, d.sym) == -1;
    AppendNames(defs, p, d, t);
    AppendSummaries(defs, p, d, t);
  }

  lemma {:induction false} AppendNames(defs: seq<Def>, p: seq<Def>, d: Def, t: seq<Symbol>)
    requires defs != [] && p == defs[..|defs| - 1] && d == defs[|defs| - 1]
    requires Unique(t) && IndexOf(t, d.sym) == -1
    requires forall k :: 0 <= k < |p| ==> IndexOf(t, p[k].sym) >= 0
    ensures Unique(t + [Symbol(d.sym, d.val, 0, d.modnum, 1, false)])
    ensures forall k :: 0 <= k < |defs| ==> IndexOf(t + [Symbol(d.sym, d.val, 0, d.modnum, 1, false)], defs[k].sym) >= 0
  {
    var t' := t + [Symbol(d.sym, d.val, 0, d.modnum, 1, false)];
    forall k | 0 <= k < |defs|
      ensures IndexOf(t', defs[k].sym) >= 0
    {
      if k < |p| {
        var i := IndexOf(t, p[k].sym);
        assert t'[i].sym == defs[k].sym;
      } else {
        assert t'[|t|].sym == defs[k].sym;
      }
    }
  }

  lemma {:induction false} AppendSummaries(defs: seq<Def>, p: seq<Def>, d: Def, t: seq<Symbol>)
    requires defs != [] && p == defs[..|defs| - 1] && d == defs[|defs| - 1]
    requires FirstOf(p, d.sym) == -1 && Count(p, d.sym) == 0
    requires forall i :: 0 <= i < |t| ==> Summarises(p, t[i])
    requires forall i :: 0 <= i < |t| ==> t[i].sym != d.sym
    ensures forall i :: 0 <= i < |t| + 1 ==> Summarises(defs, (t + [Symbol(d.sym, d.val, 0, d.modnum, 1, false)])[i])
  {
    var t' := t + [Symbol(d.sym, d.val, 0, d.modnum, 1, false)];
    DefsStep(defs);
    forall i | 0 <= i < |t'|
      ensures Summarises(defs, t'[i])
    {
      if i < |t| {
        assert t'[i] == t[i];
      }
    }
  }

  /** A known symbol: its entry only counts one more definition. */
  lemma {:induction false} RecountOk(defs: seq<Def>, p: seq<Def>, d: Def, t: seq<Symbol>, t': seq<Symbol>)
    requires defs != [] && p == defs[..|defs| - 1] && d == defs[|defs| - 1]
    requires TableOk(p, t) && IndexOf(t, d.sym) >= 0 && t' == Define(t, d)
    ensures TableOk(defs, t')
  {
    RecountNames(defs, p, d, t, t');
    RecountSummaries(defs, p, d, t, t');
  }

  lemma DefineKnown(t: seq<Symbol>, d: Def)
    requires IndexOf(t, d.sym) >= 0
    ensures Define(t, d) == t[IndexOf(t, d.sym) := t[IndexOf(t, d.sym)].(defined := t[IndexOf(t, d.sym)].defined + 1)]
  {
  }

  lemma DefineFresh(t: seq<Symbol>, d: Def)
    requires IndexOf(t, d.sym) == -1
    ensures Define(t, d) == t + [Symbol(d.sym, d.val, 0, d.modnum, 1, false)]
  {
  }

  lemma {:induction false} RecountNames(defs: seq<Def>, p: seq<Def>, d: Def, t: seq<Symbol>, t': seq<Symbol>)
    requires defs != [] && p == defs[..|defs| - 1] && d == defs[|defs| - 1]
    requires Unique(t) && IndexOf(t, d.sym) >= 0 && t' == Define(t, d)
    requires forall k :: 0 <= k < |p| ==> IndexOf(t, p[k].sym) >= 0
    ensures Unique(t')
    ensures forall k :: 0 <= k < |defs| ==> IndexOf(t', defs[k].sym) >= 0
  {
    var j := IndexOf(t, d.sym);
    DefineKnown(t, d);
    assert SameNames(t', t);
    forall k | 0 <= k < |defs|
      ensures IndexOf(t', defs[k].sym) >= 0
    {
      SameNamesIndex(t', t, defs[k].sym);
      if k < |p| {
        assert defs[k] == p[k];
      } else {
        assert t[j].sym == defs[k].sym;
      }
    }
  }

  lemma {:induction false} RecountSummaries(defs: seq<Def>, p: seq<Def>, d: Def, t: seq<Symbol>, t': seq<Symbol>)
    requires defs != [] && p == defs[..|defs| - 1] && d == defs[|defs| - 1]
    requires Unique(t) && IndexOf(t, d.sym) >= 0 && t' == Define(t, d)
    requires forall i :: 0 <= i < |t| ==> Summarises(p, t[i])
    ensures forall i :: 0 <= i < |t'| ==> Summarises(defs, t'[i])
  {
    var j := IndexOf(t, d.sym);
    DefineKnown(t, d);
    DefsStep(defs);
    forall i | 0 <= i < |t'|
      ensures Summarises(defs, t'[i])
    {
      assert Summarises(p, t[i]);
      if i != j {
        assert t'[i] == t[i] && t[i].sym != d.sym;
      }
    }
  }

  /** Pass one's table holds one entry per defined symbol; a duplicate keeps
      the first definition's value and module and only raises the definition
      count. */
  lemma {:induction false} TableSpec(defs: seq<Def>)
    ensures TableOk(defs, Table(defs))
  {
    if defs != [] {
      var p, d := defs[..|defs| - 1], defs[|defs| - 1];
      TableSpec(p);
      var t := Table(p);
      DefsStep(defs);
      if IndexOf(t, d.sym) == -1 {
        AppendOk(defs, p, d, t, Table(defs));
      } else {
        RecountOk(defs, p, d, t, Table(defs));
      }
    }
  }

  /** The entries of t stand in the order their symbols were first defined. */
  ghost predicate FirstDefinedOrder(defs: seq<Def>, t: seq<Symbol>)
  {
    forall i, j :: 0 <= i < j < |t| ==> FirstOf(defs, t[i].sym) < FirstOf(defs, t[j].sym)
  }

  /** The table lists its symbols in the order of their first definitions,
      the order printSymTab and the rule-4 warnings follow. */
  lemma {:induction false} TableOrdered(defs: seq<Def>)
    ensures FirstDefinedOrder(defs, Table(defs))
  {
    if defs != [] {
      var p, d := defs[..|defs| - 1], defs[|defs| - 1];
      var t := Table(p);
      TableOrdered(p);
      TableSpec(p);
      DefsStep(defs);
      forall i | 0 <= i < |t|
        ensures 0 <= FirstOf(p, t[i].sym) == FirstOf(defs, t[i].sym) < |p|
      {
        assert Summarises(p, t[i]);
      }
      if IndexOf(t, d.sym) == -1 {
        DefineFresh(t, d);
        FirstOfSpec(p, d.sym);
        assert forall k :: 0 <= k < |p| ==> p[k].sym != d.sym;
        OrderedFresh(defs, p, t, Table(defs));
      } else {
        DefineKnown(t, d);
        OrderedKnown(defs, p, t, Table(defs));
      }
    }
  }

  lemma OrderedFresh(defs: seq<Def>, p: seq<Def>, t: seq<Symbol>, t': seq<Symbol>)
    requires FirstDefinedOrder(p, t) && |t'| == |t| + 1 && t'[..|t|] == t
    requires forall i :: 0 <= i < |t| ==> FirstOf(p, t[i].sym) == FirstOf(defs, t[i].sym) < |p|
    requires FirstOf(defs, t'[|t|].sym) == |p|
    ensures FirstDefinedOrder(defs, t')
  {
    forall i, j | 0 <= i < j < |t'|
      ensures FirstOf(defs, t'[i].sym) < FirstOf(defs, t'[j].sym)
    {
      assert t'[i] == t[i];
      if j < |t| {
        assert t'[j] == t[j];
      }
    }
  }

  lemma OrderedKnown(defs: seq<Def>, p: seq<Def>, t: seq<Symbol>, t': seq<Symbol>)
    requires FirstDefinedOrder(p, t) && |t'| == |t|
    requires forall i :: 0 <= i < |t| ==> t'[i].sym == t[i].sym
    requires forall i :: 0 <= i < |t| ==> FirstOf(p, t[i].sym) == FirstOf(defs, t[i].sym)
    ensures FirstDefinedOrder(defs, t')
  {
  }

  /** Reading one more definition enters it in the table. */
  lemma {:induction false} TableAppend(p: seq<Def>, d: Def)
    ensures Table(p + [d]) == Define(Table(p), d)
  {
    assert (p + [d])[..|p|] == p;
  }

  /** Every entry carries the module number of a definition. */
  lemma {:induction false} ModnumsOfTable(defs: seq<Def>, n: nat)
    requires DefsIn(defs, n)
    ensures ModnumsIn(Table(defs), n)
  {
    TableSpec(defs);
    forall i | 0 <= i < |Table(defs)|
      ensures 1 <= Table(defs)[i].modnum <= n
    {
      assert Summarises(defs, Table(defs)[i]);
    }
  }

  /** printSymTab's rule-2 flag: an entry is flagged exactly when its symbol
      was defined more than once. */
  lemma MultiplyDefined(defs: seq<Def>, i: nat)
    requires i < |Table(defs)|
    ensures Table(defs)[i].defined != 1 <==> Count(defs, Table(defs)[i].sym) > 1
  {
    TableSpec(defs);
    FirstOfSpec(defs, Table(defs)[i].sym);
  }

  // ---------------------------------------------------------------------------
  // Module layout

  /** The number of instructions of the modules. */
  function TotalSize(mods: seq<Module>): int
  {
    if mods == [] then 0 else TotalSize(mods[..|mods| - 1]) + mods[|mods| - 1].size
  }

  /** Every module starts where the earlier ones end. */
  ghost predicate Bases(mods: seq<Module>)
  {
    forall k :: 0 <= k < |mods| ==> mods[k].base == TotalSize(mods[..k])
  }

  /** Sizes are instruction counts, and use lists obey the parser's limits. */
  ghost predicate ModulesOk(mods: seq<Module>)
  {
    forall k :: 0 <= k < |mods| ==>
      && mods[k].size >= 0
      && |mods[k].useList| <= MAX_USES
      && forall j :: 0 <= j < |mods[k].useList| ==> SymbolOf(mods[k].useList[j]).Ok?
  }

  /** A module placed at the end of the modules read so far keeps the layout. */
  lemma BasesAppend(mods: seq<Module>, m: Module)
    requires Bases(mods) && m.base == TotalSize(mods)
    ensures Bases(mods + [m])
    ensures TotalSize(mods + [m]) == TotalSize(mods) + m.size
  {
    var ms := mods + [m];
    assert ms[..|mods|] == mods;
    forall k | 0 <= k < |ms|
      ensures ms[k].base == TotalSize(ms[..k])
    {
      if k < |mods| {
        assert ms[..k] == mods[..k];
      }
    }
  }

  /** A module read by pass one keeps ModulesOk. */
  lemma ModulesAppend(mods: seq<Module>, m: Module)
    requires ModulesOk(mods) && m.size >= 0 && |m.useList| <= MAX_USES
    requires forall j :: 0 <= j < |m.useList| ==> SymbolOf(m.useList[j]).Ok?
    ensures ModulesOk(mods + [m])
  {
    var ms := mods + [m];
    forall k | 0 <= k < |ms|
      ensures ms[k].size >= 0 && |ms[k].useList| <= MAX_USES
      ensures forall j :: 0 <= j < |ms[k].useList| ==> SymbolOf(ms[k].useList[j]).Ok?
    {
      if k < |mods| {
        assert ms[k] == mods[k];
      }
    }
  }

  /** Every definition belongs to one of modules 1 to n. */
  ghost predicate DefsIn(defs: seq<Def>, n: int)
  {
    forall k :: 0 <= k < |defs| ==> 1 <= defs[k].modnum <= n
  }

  /** The definitions of module modnum among defs, in input order. */
  ghost function DefsOf(defs: seq<Def>, modnum: int): seq<Def>
  {
    if defs == [] then []
    else DefsOf(defs[..|defs| - 1], modnum) + (if defs[|defs| - 1].modnum == modnum then [defs[|defs| - 1]] else [])
  }

  /** Appending definitions ds of module modnum adds them to that module's
      definitions and leaves every other module's alone. */
  lemma {:induction false} DefsOfAppend(p: seq<Def>, ds: seq<Def>, modnum: int, x: int)
    requires forall k :: 0 <= k < |ds| ==> ds[k].modnum == modnum
    ensures DefsOf(p + ds, x) == DefsOf(p, x) + (if x == modnum then ds else [])
    decreases |ds|
  {
    if ds == [] {
      assert p + ds == p;
    } else {
      var q, d := ds[..|ds| - 1], ds[|ds| - 1];
      assert (p + ds)[..|p + ds| - 1] == p + q;
      DefsOfAppend(p, q, modnum, x);
      assert q + [d] == ds;
    }
  }

  /** No definition of module modnum among defs. */
  lemma {:induction false} DefsOfNone(defs: seq<Def>, modnum: int)
    requires forall k :: 0 <= k < |defs| ==> defs[k].modnum != modnum
    ensures DefsOf(defs, modnum) == []
    decreases |defs|
  {
    if defs != [] {
      DefsOfNone(defs[..|defs| - 1], modnum);
    }
  }

  /** The definitions of a module read after modules 1 to modnum - 1 are
      the ones it adds. */
  lemma DefsOfNew(defs: seq<Def>, ds: seq<Def>, modnum: int)
    requires DefsIn(defs, modnum - 1)
    requires forall k :: 0 <= k < |ds| ==> ds[k].modnum == modnum
    ensures DefsOf(defs + ds, modnum) == ds
  {
    DefsOfAppend(defs, ds, modnum, modnum);
    DefsOfNone(defs, modnum);
    assert [] + ds == ds;
  }

  /** A module lies inside the machine when the total size is within it. */
  lemma {:induction false} ModuleInMemory(mods: seq<Module>, k: nat)
    requires Bases(mods) && ModulesOk(mods) && TotalSize(mods) <= MACHINE_SIZE && k < |mods|
    ensures 0 <= mods[k].base && mods[k].base + mods[k].size <= MACHINE_SIZE
  {
    PrefixSize(mods, k + 1);
    PrefixSize(mods[..k + 1], k);
    assert mods[..k + 1][..k] == mods[..k];
    PrefixNonNegative(mods[..k]);
  }

  lemma {:induction false} PrefixSize(mods: seq<Module>, n: nat)
    requires ModulesOk(mods) && n <= |mods|
    ensures TotalSize(mods[..n]) <= TotalSize(mods)
  {
    if n < |mods| {
      var p := mods[..|mods| - 1];
      assert forall k :: 0 <= k < |p| ==> p[k] == mods[k];
      PrefixSize(p, n);
      assert p[..n] == mods[..n];
    } else {
      assert mods[..n] == mods;
    }
  }

  lemma {:induction false} PrefixNonNegative(mods: seq<Module>)
    requires forall k :: 0 <= k < |mods| ==> mods[k].size >= 0
    ensures TotalSize(mods) >= 0
  {
    if mods != [] {
      var p := mods[..|mods| - 1];
      assert forall k :: 0 <= k < |p| ==> p[k] == mods[k];
      PrefixNonNegative(p);
    }
  }

  // ---------------------------------------------------------------------------
  // Rule 5

  /** Rule 5: a relative address beyond the module is taken as 0; the
      absolute address is the module's base plus the relative one. */
  function Located(s: Symbol, m: Module): (r: Symbol)
    ensures r == s.(relAddr := r.relAddr, absAddr := r.absAddr)
    ensures r.absAddr == m.base + r.relAddr
    ensures s.relAddr > m.size - 1 ==> r.relAddr == 0
    ensures s.relAddr <= m.size - 1 ==> r.relAddr == s.relAddr
  {
    var rel := if s.relAddr > m.size - 1 then 0 else s.relAddr;
    s.(relAddr := rel, absAddr := m.base + rel)
  }

  /** A located symbol's address lies in its module (at its base when the
      module is empty). */
  lemma LocatedInModule(s: Symbol, m: Module)
    requires s.relAddr >= 0
    ensures m.size >= 1 ==> m.base <= Located(s, m).absAddr < m.base + m.size
    ensures m.size <= 0 ==> Located(s, m).absAddr == m.base
  {
  }

  /** Warnings of rule 5, one per symbol that is reset, in table order. */
  datatype Warning =
    | TooBig(modnum: int, sym: string, relAddr: int, max: int)
    | UnusedUse(modnum: int, sym: string)
    | UnusedDef(modnum: int, sym: string)

  ghost predicate ModnumsIn(tbl: seq<Symbol>, n: nat)
  {
    forall k :: 0 <= k < |tbl| ==> 1 <= tbl[k].modnum <= n
  }

  function TooBigWarnings(tbl: seq<Symbol>, mods: seq<Module>): seq<Warning>
    requires ModnumsIn(tbl, |mods|)
  {
    if tbl == [] then []
    else
      var s := tbl[|tbl| - 1];
      var m := mods[s.modnum - 1];
      TooBigWarnings(tbl[..|tbl| - 1], mods)
        + (if s.relAddr > m.size - 1 then [TooBig(s.modnum, s.sym, s.relAddr, m.size - 1)] else [])
  }

  lemma {:induction false} TooBigStep(tbl: seq<Symbol>, mods: seq<Module>, i: nat)
    requires ModnumsIn(tbl, |mods|) && i < |tbl|
    ensures ModnumsIn(tbl[..i], |mods|) && ModnumsIn(tbl[..i + 1], |mods|)
    ensures var s := tbl[i]; var m := mods[s.modnum - 1];
      TooBigWarnings(tbl[..i + 1], mods) == TooBigWarnings(tbl[..i], mods)
        + (if s.relAddr > m.size - 1 then [TooBig(s.modnum, s.sym, s.relAddr, m.size - 1)] else [])
  {
    var u := tbl[..i + 1];
    assert u[..|u| - 1] == tbl[..i];
    assert u[|u| - 1] == tbl[i];
  }

  /** tbl is t0 with its first i symbols located. */
  ghost predicate LocatedUpTo(t0: seq<Symbol>, tbl: seq<Symbol>, mods: seq<Module>, i: nat)
    requires ModnumsIn(t0, |mods|)
  {
    && |tbl| == |t0| && i <= |t0|
    && (forall k :: 0 <= k < i ==> tbl[k] == Located(t0[k], mods[t0[k].modnum - 1]))
    && (forall k :: i <= k < |t0| ==> tbl[k] == t0[k])
  }

  lemma LocatedStep(t0: seq<Symbol>, tbl: seq<Symbol>, mods: seq<Module>, i: nat)
    requires ModnumsIn(t0, |mods|) && LocatedUpTo(t0, tbl, mods, i) && i < |t0|
    ensures LocatedUpTo(t0, tbl[i := Located(t0[i], mods[t0[i].modnum - 1])], mods, i + 1)
  {
  }

  // ---------------------------------------------------------------------------
  // Pass two: relocation

  function Opcode(instr: nat): nat { instr / 1000 }

  function Operand(instr: nat): nat { instr % 1000 }

  datatype MapError =
    | NoError
    | IllegalImmediate
    | IllegalOpcode
    | AbsTooBig
    | ExtTooBig
    | Undefined(sym: string)
    | RelTooBig

  /** A line of the memory map: the word written and the error reported. */
  datatype Entry = Entry(value: int, error: MapError)

  /** An E instruction with a legal opcode whose operand names an entry of
      the module's use list. */
  predicate ExternalRef(mode: Mode, instr: nat, m: Module)
  {
    mode == E && Opcode(instr) <= 9 && Operand(instr) < |m.useList|
  }

  /** The word pass two writes for one instruction of module m, given the
      symbol table. */
  function Relocate(mode: Mode, instr: nat, m: Module, tbl: seq<Symbol>): (e: Entry)
    // the use list is only indexed inside its bounds; an empty one is always reported
    ensures mode == E && Opcode(instr) <= 9 ==> (e.error == ExtTooBig <==> Operand(instr) >= |m.useList|)
    ensures mode == E && Opcode(instr) <= 9 && |m.useList| == 0 ==> e == Entry(instr, ExtTooBig)
  {
    var opcode, operand := Opcode(instr), Operand(instr);
    match mode
    case I => if instr > 9999 then Entry(9999, IllegalImmediate) else Entry(instr, NoError)
    case A =>
      if opcode > 9 then Entry(9999, IllegalOpcode)
      else if operand > 511 then Entry(opcode * 1000, AbsTooBig)
      else Entry(instr, NoError)
    case E =>
      if opcode > 9 then Entry(9999, IllegalOpcode)
      else if operand >= |m.useList| then Entry(instr, ExtTooBig)
      else
        var sym := m.useList[operand];
        var i := IndexOf(tbl, sym);
        if i == -1 then Entry(opcode * 1000, Undefined(sym))
        else Entry(opcode * 1000 + tbl[i].absAddr, NoError)
    case R =>
      if opcode > 9 then Entry(9999, IllegalOpcode)
      else if operand > m.size - 1 then Entry(opcode * 1000 + m.base, RelTooBig)
      else Entry(opcode * 1000 + operand + m.base, NoError)
  }

  /** Every symbol address lies in the machine. */
  ghost predicate AddrsIn(tbl: seq<Symbol>)
  {
    forall k :: 0 <= k < |tbl| ==> 0 <= tbl[k].absAddr < MACHINE_SIZE
  }

  /** An address pass two computes for a module inside the machine lies in the
      machine, and the opcode is kept: apart from the errors that replace the
      word (an illegal opcode or immediate) and the E operand left as it was,
      the word is opcode * 1000 + an address below 512. */
  lemma RelocatedInMemory(mode: Mode, instr: nat, m: Module, tbl: seq<Symbol>)
    requires 0 <= m.base && 1 <= m.size && m.base + m.size <= MACHINE_SIZE && AddrsIn(tbl)
    ensures var e := Relocate(mode, instr, m, tbl);
      mode != I && e.error !in {IllegalOpcode, ExtTooBig} ==>
        Opcode(e.value) == Opcode(instr) && Operand(e.value) < MACHINE_SIZE
    ensures mode == I ==> 0 <= Relocate(mode, instr, m, tbl).value <= 9999
  {
    var e := Relocate(mode, instr, m, tbl);
    if mode != I && e.error !in {IllegalOpcode, ExtTooBig} {
      var a := e.value - 1000 * Opcode(instr);
      assert 0 <= a < MACHINE_SIZE;
      assert e.value == 1000 * Opcode(instr) + a;
    }
  }

  // ---------------------------------------------------------------------------
  // The E-operand bound as the source writes it

  /** `oprand > use_list.size() - 1` with the right-hand side computed in 64-bit
      unsigned arithmetic (the operand, at most 999, converts unchanged). */
  predicate ExtOutOfRangeAsWritten(operand: nat, useCount: nat)
    requires operand < SIZE_T_MODULUS
  {
    operand > (useCount - 1) % SIZE_T_MODULUS
  }

  /** With an empty use list the bound wraps to 2^64 - 1, so operand 0 passes
      the check and then indexes an element the list does not have. */
  lemma EmptyUseListPasses()
    ensures !ExtOutOfRangeAsWritten(0, 0) && !(0 < 0)
  {
  }

  /** Apart from the empty use list the written bound is the intended one. */
  lemma AsWrittenAgrees(operand: nat, useCount: nat)
    requires operand < SIZE_T_MODULUS && 1 <= useCount <= SIZE_T_MODULUS
    ensures ExtOutOfRangeAsWritten(operand, useCount) <==> operand >= useCount
  {
  }

  // ---------------------------------------------------------------------------
  // Usage of symbols in pass two

  /** An instruction as pass two met it: mode, word and module index (from 0). */
  datatype Instr = Instr(mode: Mode, instr: nat, modIndex: nat)

  /** The instructions of module mi among code, in input order. */
  ghost function CodeOf(code: seq<Instr>, mi: nat): seq<Instr>
  {
    if code == [] then []
    else CodeOf(code[..|code| - 1], mi) + (if code[|code| - 1].modIndex == mi then [code[|code| - 1]] else [])
  }

  /** Appending instructions cs of module mi adds them to that module's
      instructions and leaves every other module's alone. */
  lemma {:induction false} CodeOfAppend(c0: seq<Instr>, cs: seq<Instr>, mi: nat, x: nat)
    requires forall k :: 0 <= k < |cs| ==> cs[k].modIndex == mi
    ensures CodeOf(c0 + cs, x) == CodeOf(c0, x) + (if x == mi then cs else [])
    decreases |cs|
  {
    if cs == [] {
      assert c0 + cs == c0;
    } else {
      var q, c := cs[..|cs| - 1], cs[|cs| - 1];
      assert (c0 + cs)[..|c0 + cs| - 1] == c0 + q;
      CodeOfAppend(c0, q, mi, x);
      assert q + [c] == cs;
    }
  }

  /** No instruction of module mi among code. */
  lemma {:induction false} CodeOfNone(code: seq<Instr>, mi: nat)
    requires forall k :: 0 <= k < |code| ==> code[k].modIndex != mi
    ensures CodeOf(code, mi) == []
    decreases |code|
  {
    if code != [] {
      CodeOfNone(code[..|code| - 1], mi);
    }
  }

  /** Instruction c refers to table entry i through its use list. */
  ghost predicate Refers(c: Instr, mods: seq<Module>, tbl: seq<Symbol>, i: int)
  {
    && c.modIndex < |mods|
    && ExternalRef(c.mode, c.instr, mods[c.modIndex])
    && IndexOf(tbl, mods[c.modIndex].useList[Operand(c.instr)]) == i
  }

  /** Instruction c of module mi names use-list entry j. */
  ghost predicate NamesEntry(c: Instr, mods: seq<Module>, mi: nat, j: nat)
  {
    && c.modIndex == mi && mi < |mods|
    && ExternalRef(c.mode, c.instr, mods[mi])
    && Operand(c.instr) == j
  }

  /** t2 is t1 with only the used flags changed. */
  ghost predicate SameLayout(t1: seq<Symbol>, t2: seq<Symbol>)
  {
    |t1| == |t2| && forall k :: 0 <= k < |t1| ==> t1[k] == t2[k].(used := t1[k].used)
  }

  /** t1 and t2 name the same symbols at the same places. */
  ghost predicate SameNames(t1: seq<Symbol>, t2: seq<Symbol>)
  {
    |t1| == |t2| && forall k :: 0 <= k < |t1| ==> t1[k].sym == t2[k].sym
  }

  lemma {:induction false} SameNamesIndex(t1: seq<Symbol>, t2: seq<Symbol>, sym: string)
    requires SameNames(t1, t2)
    ensures IndexOf(t1, sym) == IndexOf(t2, sym)
  {
    if t1 != [] && t1[0].sym != sym {
      SameNamesIndex(t1[1..], t2[1..], sym);
    }
  }

  /** Relocation reads names and addresses only, not the used flags. */
  lemma RelocateLayout(mode: Mode, instr: nat, m: Module, t1: seq<Symbol>, t2: seq<Symbol>)
    requires SameLayout(t1, t2)
    ensures Relocate(mode, instr, m, t1) == Relocate(mode, instr, m, t2)
  {
    if ExternalRef(mode, instr, m) {
      assert SameNames(t1, t2);
      SameNamesIndex(t1, t2, m.useList[Operand(instr)]);
    }
  }

  /** Rule 4's warnings: one per symbol never used, in table order. */
  function UnusedDefs(tbl: seq<Symbol>): seq<Warning>
  {
    if tbl == [] then []
    else
      var s := tbl[|tbl| - 1];
      UnusedDefs(tbl[..|tbl| - 1]) + (if s.used then [] else [UnusedDef(s.modnum, s.sym)])
  }

  /** A rule-4 warning is given exactly for the unused symbols. */
  lemma {:induction false} UnusedDefsExact(tbl: seq<Symbol>, w: Warning)
    ensures w in UnusedDefs(tbl) <==> exists i :: 0 <= i < |tbl| && !tbl[i].used && w == UnusedDef(tbl[i].modnum, tbl[i].sym)
  {
    if tbl != [] {
      var p := tbl[..|tbl| - 1];
      UnusedDefsExact(p, w);
      assert forall k :: 0 <= k < |p| ==> p[k] == tbl[k];
      if w in UnusedDefs(tbl) && w !in UnusedDefs(p) {
        assert !tbl[|tbl| - 1].used && w == UnusedDef(tbl[|tbl| - 1].modnum, tbl[|tbl| - 1].sym);
      }
    }
  }

  /** Rule 7's warnings for module number modnum: one per use-list entry whose
      flag is clear, in use-list order. */
  function UnusedUses(modnum: int, uses: seq<string>, flags: seq<bool>): seq<Warning>
    requires |flags| == |uses|
  {
    if uses == [] then []
    else
      UnusedUses(modnum, uses[..|uses| - 1], flags[..|uses| - 1])
        + (if flags[|uses| - 1] then [] else [UnusedUse(modnum, uses[|uses| - 1])])
  }

  /** A rule-7 warning is given exactly for the entries whose flag is clear. */
  lemma {:induction false} UnusedUsesExact(modnum: int, uses: seq<string>, flags: seq<bool>, w: Warning)
    requires |flags| == |uses|
    ensures w in UnusedUses(modnum, uses, flags) <==> exists j :: 0 <= j < |uses| && !flags[j] && w == UnusedUse(modnum, uses[j])
  {
    if uses != [] {
      var n := |uses| - 1;
      UnusedUsesExact(modnum, uses[..n], flags[..n], w);
      assert forall k :: 0 <= k < n ==> uses[..n][k] == uses[k] && flags[..n][k] == flags[k];
      if w in UnusedUses(modnum, uses, flags) && w !in UnusedUses(modnum, uses[..n], flags[..n]) {
        assert !flags[n] && w == UnusedUse(modnum, uses[n]);
      }
    }
  }

  /** Some instruction of code refers to entry i. */
  ghost predicate Referenced(code: seq<Instr>, mods: seq<Module>, tbl: seq<Symbol>, i: int)
  {
    exists k :: 0 <= k < |code| && Refers(code[k], mods, tbl, i)
  }

  lemma {:induction false} ReferencedAppend(code: seq<Instr>, c: Instr, mods: seq<Module>, tbl: seq<Symbol>, i: int)
    ensures Referenced(code + [c], mods, tbl, i) <==> Referenced(code, mods, tbl, i) || Refers(c, mods, tbl, i)
  {
    var code' := code + [c];
    if Referenced(code', mods, tbl, i) && !Refers(c, mods, tbl, i) {
      var k :| 0 <= k < |code'| && Refers(code'[k], mods, tbl, i);
      assert k < |code| && code[k] == code'[k];
    }
    if Referenced(code, mods, tbl, i) {
      var k :| 0 <= k < |code| && Refers(code[k], mods, tbl, i);
      assert code'[k] == code[k];
    }
    if Refers(c, mods, tbl, i) {
      assert code'[|code|] == c;
    }
  }

  /** Some instruction of code from index lo on names use-list entry j of module mi. */
  ghost predicate Named(code: seq<Instr>, lo: nat, mods: seq<Module>, mi: nat, j: nat)
  {
    exists k :: lo <= k < |code| && NamesEntry(code[k], mods, mi, j)
  }

  lemma {:induction false} NamedAppend(code: seq<Instr>, lo: nat, c: Instr, mods: seq<Module>, mi: nat, j: nat)
    requires lo <= |code|
    ensures Named(code + [c], lo, mods, mi, j) <==> Named(code, lo, mods, mi, j) || NamesEntry(c, mods, mi, j)
  {
    var code' := code + [c];
    if Named(code', lo, mods, mi, j) && !NamesEntry(c, mods, mi, j) {
      var k :| lo <= k < |code'| && NamesEntry(code'[k], mods, mi, j);
      assert k < |code| && code[k] == code'[k];
    }
    if Named(code, lo, mods, mi, j) {
      var k :| lo <= k < |code| && NamesEntry(code[k], mods, mi, j);
      assert code'[k] == code[k];
    }
    if NamesEntry(c, mods, mi, j) {
      assert code'[|code|] == c;
    }
  }

  /** References are the same whether looked up before or after pass two set
      the used flags. */
  lemma {:induction false} ReferencedLayout(code: seq<Instr>, mods: seq<Module>, t1: seq<Symbol>, t2: seq<Symbol>, i: int)
    requires SameLayout(t1, t2)
    ensures Referenced(code, mods, t1, i) <==> Referenced(code, mods, t2, i)
  {
    assert SameNames(t1, t2);
    forall k | 0 <= k < |code| && code[k].modIndex < |mods| && ExternalRef(code[k].mode, code[k].instr, mods[code[k].modIndex])
      ensures IndexOf(t1, mods[code[k].modIndex].useList[Operand(code[k].instr)]) == IndexOf(t2, mods[code[k].modIndex].useList[Operand(code[k].instr)])
    {
      SameNamesIndex(t1, t2, mods[code[k].modIndex].useList[Operand(code[k].instr)]);
    }
  }

  /** What pass two keeps true of table t relative to the table tbl0 of pass
      one: only used flags change, there is one word per instruction read,
      and a symbol is used exactly when some instruction read so far refers
      to it. */
  ghost predicate Linked(tbl0: seq<Symbol>, t: seq<Symbol>, mods: seq<Module>, code: seq<Instr>, words: seq<Entry>)
  {
    && SameLayout(tbl0, t)
    && |words| == |code|
    && (forall k {:trigger WordAt(tbl0, mods, code, words, k)} :: 0 <= k < |code| ==> WordAt(tbl0, mods, code, words, k))
    && (forall i :: 0 <= i < |t| ==> (t[i].used <==> Referenced(code, mods, tbl0, i)))
  }

  /** Word k of the map is the relocation of instruction k against tbl. */
  ghost predicate WordAt(tbl: seq<Symbol>, mods: seq<Module>, code: seq<Instr>, words: seq<Entry>, k: nat)
  {
    && k < |code| && k < |words| && code[k].modIndex < |mods|
    && words[k] == Relocate(code[k].mode, code[k].instr, mods[code[k].modIndex], tbl)
  }

  /** Relocating one more instruction keeps Linked. */
  lemma LinkedAppend(tbl0: seq<Symbol>, t: seq<Symbol>, t': seq<Symbol>, mods: seq<Module>,
                     code: seq<Instr>, words: seq<Entry>, c: Instr, e: Entry)
    requires Linked(tbl0, t, mods, code, words)
    requires SameLayout(tbl0, t') && c.modIndex < |mods|
    requires e == Relocate(c.mode, c.instr, mods[c.modIndex], tbl0)
    requires forall i :: 0 <= i < |t'| ==> (t'[i].used <==> t[i].used || Refers(c, mods, tbl0, i))
    ensures Linked(tbl0, t', mods, code + [c], words + [e])
  {
    forall i | 0 <= i < |t'|
      ensures t'[i].used <==> Referenced(code + [c], mods, tbl0, i)
    {
      ReferencedAppend(code, c, mods, tbl0, i);
    }
    var code', words' := code + [c], words + [e];
    forall k | 0 <= k < |code'|
      ensures WordAt(tbl0, mods, code', words', k)
    {
      if k < |code| {
        assert WordAt(tbl0, mods, code, words, k);
        assert code'[k] == code[k] && words'[k] == words[k];
      }
    }
  }

  /** The use-list flags of module mi record which entries the module's
      instructions (those of code from lo on) name. */
  ghost predicate FlagsOk(flags: seq<bool>, code: seq<Instr>, lo: nat, mods: seq<Module>, mi: nat)
    requires mi < |mods|
  {
    && |flags| == |mods[mi].useList|
    && forall j :: 0 <= j < |flags| ==> (flags[j] <==> Named(code, lo, mods, mi, j))
  }

  /** Setting the flag of the entry instruction c of module mi names keeps
      FlagsOk. */
  lemma FlagsAppend(flags: seq<bool>, flags': seq<bool>, code: seq<Instr>, lo: nat, mods: seq<Module>, mi: nat, c: Instr)
    requires mi < |mods| && lo <= |code| && c.modIndex == mi && FlagsOk(flags, code, lo, mods, mi)
    requires flags' == if ExternalRef(c.mode, c.instr, mods[mi]) then flags[Operand(c.instr) := true] else flags
    ensures FlagsOk(flags', code + [c], lo, mods, mi)
  {
    forall j | 0 <= j < |flags'|
      ensures flags'[j] <==> Named(code + [c], lo, mods, mi, j)
    {
      NamedAppend(code, lo, c, mods, mi, j);
    }
  }

  /** Which use-list entries of module mi some instruction of code names. */
  ghost function UsedEntries(code: seq<Instr>, mods: seq<Module>, mi: nat): (flags: seq<bool>)
    requires mi < |mods|
    ensures |flags| == |mods[mi].useList|
  {
    seq(|mods[mi].useList|, j requires 0 <= j < |mods[mi].useList| => Named(code, 0, mods, mi, j))
  }

  /** Rule 7's warnings for the first n modules, module after module. */
  ghost function UseWarnings(code: seq<Instr>, mods: seq<Module>, n: nat): seq<Warning>
    requires n <= |mods|
  {
    if n == 0 then []
    else UseWarnings(code, mods, n - 1) + UnusedUses(n, mods[n - 1].useList, UsedEntries(code, mods, n - 1))
  }

  /** A rule-7 warning is given exactly for the use-list entries of the first
      n modules that none of their module's instructions names. */
  lemma {:induction false} UseWarningsExact(code: seq<Instr>, mods: seq<Module>, n: nat, w: Warning)
    requires n <= |mods|
    ensures w in UseWarnings(code, mods, n) <==>
      exists mi, j :: 0 <= mi < n && 0 <= j < |mods[mi].useList| && !Named(code, 0, mods, mi, j)
        && w == UnusedUse(mi + 1, mods[mi].useList[j])
  {
    if n > 0 {
      var mi := n - 1;
      var flags := UsedEntries(code, mods, mi);
      UseWarningsExact(code, mods, mi, w);
      UnusedUsesExact(n, mods[mi].useList, flags, w);
      assert UseWarnings(code, mods, n) == UseWarnings(code, mods, mi) + UnusedUses(n, mods[mi].useList, flags);
      if w in UnusedUses(n, mods[mi].useList, flags) {
        var j :| 0 <= j < |mods[mi].useList| && !flags[j] && w == UnusedUse(n, mods[mi].useList[j]);
        assert !Named(code, 0, mods, mi, j);
      }
      if (exists m, j :: 0 <= m < n && 0 <= j < |mods[m].useList| && !Named(code, 0, mods, m, j)
            && w == UnusedUse(m + 1, mods[m].useList[j])) {
        var m, j :| 0 <= m < n && 0 <= j < |mods[m].useList| && !Named(code, 0, mods, m, j)
          && w == UnusedUse(m + 1, mods[m].useList[j]);
        if m == mi {
          assert !flags[j];
        }
      }
    }
  }

  /** Instructions of other modules do not change which entries of module mi
      are named. */
  lemma NamedFrame(code: seq<Instr>, more: seq<Instr>, mods: seq<Module>, mi: nat, j: nat)
    requires forall k :: 0 <= k < |more| ==> more[k].modIndex != mi
    ensures Named(code + more, 0, mods, mi, j) <==> Named(code, 0, mods, mi, j)
  {
    var all := code + more;
    assert forall k :: |code| <= k < |all| ==> all[k] == more[k - |code|];
    if Named(all, 0, mods, mi, j) {
      var k :| 0 <= k < |all| && NamesEntry(all[k], mods, mi, j);
      assert k < |code|;
      assert all[k] == code[k];
    }
    if Named(code, 0, mods, mi, j) {
      var k :| 0 <= k < |code| && NamesEntry(code[k], mods, mi, j);
      assert all[k] == code[k];
    }
  }

  /** Instructions of other modules before lo do not name entries of module mi. */
  lemma NamedFrom(code: seq<Instr>, lo: nat, mods: seq<Module>, mi: nat, j: nat)
    requires lo <= |code| && forall k :: 0 <= k < lo ==> code[k].modIndex != mi
    ensures Named(code, lo, mods, mi, j) <==> Named(code, 0, mods, mi, j)
  {
    if Named(code, 0, mods, mi, j) {
      var k :| 0 <= k < |code| && NamesEntry(code[k], mods, mi, j);
      assert lo <= k;
    }
  }

  lemma {:induction false} UseWarningsFrame(code: seq<Instr>, more: seq<Instr>, mods: seq<Module>, n: nat)
    requires n <= |mods| && forall k :: 0 <= k < |more| ==> more[k].modIndex >= n
    ensures UseWarnings(code + more, mods, n) == UseWarnings(code, mods, n)
  {
    if n > 0 {
      var all, mi := code + more, n - 1;
      UseWarningsFrame(code, more, mods, mi);
      forall j | 0 <= j < |mods[mi].useList|
        ensures UsedEntries(all, mods, mi)[j] == UsedEntries(code, mods, mi)[j]
      {
        NamedFrame(code, more, mods, mi, j);
      }
      assert UsedEntries(all, mods, mi) == UsedEntries(code, mods, mi);
    }
  }

  /** After module mi's instructions, its rule-7 warnings follow those of the
      modules before. */
  lemma UseWarningsStep(c0: seq<Instr>, code: seq<Instr>, mods: seq<Module>, mi: nat, flags: seq<bool>)
    requires mi < |mods| && |c0| <= |code| && code == c0 + code[|c0|..]
    requires forall k :: 0 <= k < |c0| ==> c0[k].modIndex < mi
    requires forall k :: |c0| <= k < |code| ==> code[k].modIndex == mi
    requires FlagsOk(flags, code, |c0|, mods, mi)
    ensures UseWarnings(code, mods, mi + 1) == UseWarnings(c0, mods, mi) + UnusedUses(mi + 1, mods[mi].useList, flags)
  {
    var more := code[|c0|..];
    assert forall k :: 0 <= k < |more| ==> more[k] == code[|c0| + k];
    UseWarningsFrame(c0, more, mods, mi);
    forall j | 0 <= j < |flags|
      ensures flags[j] == UsedEntries(code, mods, mi)[j]
    {
      NamedFrom(code, |c0|, mods, mi, j);
    }
    assert flags == UsedEntries(code, mods, mi);
  }

  /** Before pass two no symbol is used. */
  lemma TableUnused(defs: seq<Def>)
    ensures forall i :: 0 <= i < |Table(defs)| ==> !Table(defs)[i].used
  {
    TableSpec(defs);
    forall i | 0 <= i < |Table(defs)|
      ensures !Table(defs)[i].used
    {
      assert Summarises(defs, Table(defs)[i]);
    }
  }

  /** The table before pass two and the one after agree on everything but
      the used flags, so references and words can be read off either. */
  lemma LinkedFinal(tbl0: seq<Symbol>, t: seq<Symbol>, mods: seq<Module>, code: seq<Instr>, words: seq<Entry>)
    requires Linked(tbl0, t, mods, code, words)
    ensures forall i :: 0 <= i < |t| ==> t[i] == tbl0[i].(used := Referenced(code, mods, t, i))
    ensures forall k :: 0 <= k < |code| ==>
      code[k].modIndex < |mods| && words[k] == Relocate(code[k].mode, code[k].instr, mods[code[k].modIndex], t)
  {
    forall i | 0 <= i < |t|
      ensures t[i] == tbl0[i].(used := Referenced(code, mods, t, i))
    {
      ReferencedLayout(code, mods, tbl0, t, i);
    }
    forall k | 0 <= k < |code|
      ensures code[k].modIndex < |mods| && words[k] == Relocate(code[k].mode, code[k].instr, mods[code[k].modIndex], t)
    {
      assert WordAt(tbl0, mods, code, words, k);
      RelocateLayout(code[k].mode, code[k].instr, mods[code[k].modIndex], tbl0, t);
    }
  }

  // ---------------------------------------------------------------------------
  // The results of the two passes

  /** Pass one's result: the modules mods laid out one after another inside
      the machine, the table tbl of the definitions defs located by rule 5,
      with rule 5's warnings. */
  ghost predicate LaidOut(defs: seq<Def>, mods: seq<Module>, tbl: seq<Symbol>, warnings: seq<Warning>)
  {
    && Bases(mods) && ModulesOk(mods) && TotalSize(mods) <= MACHINE_SIZE
    && DefsIn(defs, |mods|) && ModnumsIn(Table(defs), |mods|)
    && |tbl| == |Table(defs)|
    && (forall i :: 0 <= i < |tbl| ==> tbl[i] == Located(Table(defs)[i], mods[Table(defs)[i].modnum - 1]))
    && warnings == TooBigWarnings(Table(defs), mods)
  }

  /** Pass two's result: every symbol of the laid-out table is marked used
      exactly when an instruction refers to it, and every instruction's word
      is relocated against that table. */
  ghost predicate Resolved(defs: seq<Def>, mods: seq<Module>, tbl: seq<Symbol>, code: seq<Instr>, words: seq<Entry>)
  {
    && ModnumsIn(Table(defs), |mods|) && |tbl| == |Table(defs)|
    && (forall i :: 0 <= i < |tbl| ==>
          tbl[i] == Located(Table(defs)[i], mods[Table(defs)[i].modnum - 1]).(used := Referenced(code, mods, tbl, i)))
    && |words| == |code|
    && (forall k :: 0 <= k < |code| ==>
          code[k].modIndex < |mods|
          && words[k] == Relocate(code[k].mode, code[k].instr, mods[code[k].modIndex], tbl))
  }

  /** The modules laid out and rule 5 applied to the whole table give pass
      one's result. */
  lemma LaidOutIntro(defs: seq<Def>, mods: seq<Module>, t: seq<Symbol>, tbl: seq<Symbol>, warnings: seq<Warning>)
    requires Bases(mods) && ModulesOk(mods) && TotalSize(mods) <= MACHINE_SIZE
    requires DefsIn(defs, |mods|) && t == Table(defs) && ModnumsIn(t, |mods|)
    requires LocatedUpTo(t, tbl, mods, |t|) && warnings == [] + TooBigWarnings(t, mods)
    ensures LaidOut(defs, mods, tbl, warnings)
  {
    assert [] + TooBigWarnings(t, mods) == TooBigWarnings(t, mods);
  }

  /** Pass one leaves every symbol unused. */
  lemma LaidOutUnused(defs: seq<Def>, mods: seq<Module>, tbl: seq<Symbol>, warnings: seq<Warning>)
    requires LaidOut(defs, mods, tbl, warnings)
    ensures forall i :: 0 <= i < |tbl| ==> !tbl[i].used
  {
    TableUnused(defs);
  }

  /** Every located symbol lies in its module, so inside the machine; a
      symbol of an empty module lies at that module's base, which is at most
      the machine size. */
  lemma LaidOutInMemory(defs: seq<Def>, mods: seq<Module>, tbl: seq<Symbol>, warnings: seq<Warning>, i: nat)
    requires LaidOut(defs, mods, tbl, warnings) && i < |tbl|
    ensures var m := mods[tbl[i].modnum - 1];
      && tbl[i].modnum == Table(defs)[i].modnum
      && 0 <= m.base <= tbl[i].absAddr <= MACHINE_SIZE
      && (m.size >= 1 ==> tbl[i].absAddr < m.base + m.size <= MACHINE_SIZE)
  {
    var t := Table(defs);
    TableSpec(defs);
    assert Summarises(defs, t[i]);
    var m := mods[t[i].modnum - 1];
    ModuleInMemory(mods, t[i].modnum - 1);
    LocatedInModule(t[i], m);
  }

  /** Pass one's table and pass two's flags combine into the final table. */
  lemma LinkResult(defs: seq<Def>, mods: seq<Module>, t0: seq<Symbol>, warnings: seq<Warning>,
                   tbl: seq<Symbol>, code: seq<Instr>, words: seq<Entry>)
    requires LaidOut(defs, mods, t0, warnings) && Linked(t0, tbl, mods, code, words)
    ensures Resolved(defs, mods, tbl, code, words)
  {
    LinkedFinal(t0, tbl, mods, code, words);
  }

  /** After pass two, rule 4 warns exactly about the symbols no instruction
      refers to. */
  lemma ResolvedUnusedDefs(defs: seq<Def>, mods: seq<Module>, tbl: seq<Symbol>, code: seq<Instr>, words: seq<Entry>, w: Warning)
    requires Resolved(defs, mods, tbl, code, words)
    ensures w in UnusedDefs(tbl) <==>
      exists i :: 0 <= i < |tbl| && !Referenced(code, mods, tbl, i) && w == UnusedDef(tbl[i].modnum, tbl[i].sym)
  {
    UnusedDefsExact(tbl, w);
    assert forall i :: 0 <= i < |tbl| ==> tbl[i].used == Referenced(code, mods, tbl, i);
  }
}
