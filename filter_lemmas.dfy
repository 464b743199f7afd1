// What applyFilter promises, proved about the specification fold Run that the
// method ApplyFilter is proved to follow.

module FilterLemmas {
  import opened Wrappers
  import opened Filter
  import Text
  import Numbers

  // ---------------------------------------------------------------------
  // Faults

  /** The operands a recognised item reads before it has done its work: a range
      reads value[0] and value[1], checkbox and select value[0], option none. */
  function Needed(t: string): nat
  {
    if t == "option" then 0 else if t in RangeTypes then 2 else 1
  }

  /** A recognised item with too few operands: the C# indexes past value's end. */
  predicate Short(item: FilterViewModel)
  {
    item.filterType in AllowedTypes && |item.value| < Needed(item.filterType)
  }

  /** An item throws exactly when it has fewer operands than it reads. */
  lemma ItemFaultIffShort(t: string, col: string, value: seq<string>, dataType: string,
                          a: int, base: nat, guids: nat -> string)
    requires t in AllowedTypes
    ensures ItemStep(t, col, value, dataType, a, base, guids).faulted <==> |value| < Needed(t)
  {
    if t in RangeTypes {
      assert ItemStep(t, col, value, dataType, a, base, guids) == RangeItem(col, value, a, base, guids);
    }
  }

  /** applyFilter throws exactly when some recognised item is short of operands,
      and the exception is always the index fault. */
  lemma {:induction false} FaultIffShort(filter: seq<FilterViewModel>, n: nat, start: map<FilterViewModel, int>,
                                         params0: map<string, ParamValue>, initialCmd: string, guids: nat -> string)
    requires n <= |filter| && Covers(filter, start)
    ensures var st := Run(filter, n, start, params0, initialCmd, guids);
            && (st.fault.Some? <==> exists i :: 0 <= i < n && Short(filter[i]))
            && (st.fault.Some? ==> st.fault == Some(IndexOutOfRange))
  {
    if n > 0 {
      FaultIffShort(filter, n - 1, start, params0, initialCmd, guids);
      StepFault(Run(filter, n - 1, start, params0, initialCmd, guids), filter[n - 1], guids);
      ShortSnoc(filter, n);
    }
  }

  /** Some item of filter[..n] is short iff one of filter[..n-1] is or the last. */
  lemma ShortSnoc(filter: seq<FilterViewModel>, n: nat)
    requires 0 < n <= |filter|
    ensures (exists i :: 0 <= i < n && Short(filter[i]))
            <==> (exists i :: 0 <= i < n - 1 && Short(filter[i])) || Short(filter[n - 1])
  {
    if Short(filter[n - 1]) {
      assert 0 <= n - 1 < n && Short(filter[n - 1]);
    }
    if exists i :: 0 <= i < n - 1 && Short(filter[i]) {
      var i :| 0 <= i < n - 1 && Short(filter[i]);
      assert 0 <= i < n && Short(filter[i]);
    }
  }

  /** One item: a fault stays, and otherwise the item throws exactly when it is short. */
  lemma StepFault(st: State, item: FilterViewModel, guids: nat -> string)
    requires item in st.allowNull
    ensures var r := Step(st, item, guids);
            && (st.fault.Some? ==> r.fault == st.fault)
            && (st.fault.None? ==> (r.fault.Some? <==> Short(item)) && (r.fault.Some? ==> r.fault == Some(IndexOutOfRange)))
  {
    if st.fault.None? && item.filterType in AllowedTypes {
      var out := StepOut(st, item, guids);
      ItemFaultIffShort(item.filterType, item.returnCol, item.value, item.dataType,
                        st.allowNull[item], st.used, guids);
    }
  }

  // ---------------------------------------------------------------------
  // Filters that do nothing

  /** An empty filter, or one with no item of a recognised type, leaves the
      command as initialCmd and changes neither the parameters nor any allowNull. */
  lemma {:induction false} Unrecognised(filter: seq<FilterViewModel>, n: nat, start: map<FilterViewModel, int>,
                                        params0: map<string, ParamValue>, initialCmd: string, guids: nat -> string)
    requires n <= |filter| && Covers(filter, start)
    requires forall i :: 0 <= i < n ==> filter[i].filterType !in AllowedTypes
    ensures Run(filter, n, start, params0, initialCmd, guids) == State([Command(initialCmd)], params0, start, 0, None)
    ensures CommandText(Run(filter, n, start, params0, initialCmd, guids)) == initialCmd
  {
    if n > 0 {
      Unrecognised(filter, n - 1, start, params0, initialCmd, guids);
    }
    RenderAllOne(Command(initialCmd));
    Text.JoinSingle(initialCmd, " ");
  }

  /** An item that emits no condition (a skipped type, a fault, a select without a
      usable choice) leaves the tokens as they were: its "\n and ((" is gone again. */
  lemma SilentItem(st: State, item: FilterViewModel, guids: nat -> string)
    requires item in st.allowNull
    requires item.filterType in AllowedTypes
    requires !ItemStep(item.filterType, item.returnCol, item.value, item.dataType,
                       st.allowNull[item], st.used, guids).emitted
    ensures Step(st, item, guids).tokens == st.tokens
  {
    assert st.tokens + [] == st.tokens;
  }

  // ---------------------------------------------------------------------
  // Token order

  /** The tokens only grow: what earlier items appended is never changed, and the
      command always starts with initialCmd. */
  lemma {:induction false} TokensGrow(filter: seq<FilterViewModel>, k: nat, n: nat, start: map<FilterViewModel, int>,
                                      params0: map<string, ParamValue>, initialCmd: string, guids: nat -> string)
    requires k <= n <= |filter| && Covers(filter, start)
    ensures Run(filter, k, start, params0, initialCmd, guids).tokens <= Run(filter, n, start, params0, initialCmd, guids).tokens
    decreases n
  {
    if n > k {
      TokensGrow(filter, k, n - 1, start, params0, initialCmd, guids);
      var prev := Run(filter, n - 1, start, params0, initialCmd, guids);
      StepTokensGrow(prev, filter[n - 1], guids);
      PrefixTransitive(Run(filter, k, start, params0, initialCmd, guids).tokens, prev.tokens,
                       Step(prev, filter[n - 1], guids).tokens);
    }
  }

  lemma PrefixTransitive<T>(a: seq<T>, b: seq<T>, c: seq<T>)
    requires a <= b && b <= c
    ensures a <= c
  {
    assert c[..|b|][..|a|] == c[..|a|];
  }

  lemma StepTokensGrow(st: State, item: FilterViewModel, guids: nat -> string)
    requires item in st.allowNull
    ensures st.tokens <= Step(st, item, guids).tokens
  {
  }

  /** The command always starts with initialCmd. */
  lemma CommandFirst(filter: seq<FilterViewModel>, n: nat, start: map<FilterViewModel, int>,
                     params0: map<string, ParamValue>, initialCmd: string, guids: nat -> string)
    requires n <= |filter| && Covers(filter, start)
    ensures var ts := Run(filter, n, start, params0, initialCmd, guids).tokens;
            |ts| > 0 && ts[0] == Command(initialCmd)
  {
    TokensGrow(filter, 0, n, start, params0, initialCmd, guids);
  }

  /** The tokens of one recognised item, without a fault, come after those of the
      items before it, in the order the switch appends them. */
  lemma ItemOrder(st: State, item: FilterViewModel, guids: nat -> string)
    requires item in st.allowNull && st.fault.None? && item.filterType in AllowedTypes
    requires !ItemStep(item.filterType, item.returnCol, item.value, item.dataType,
                       st.allowNull[item], st.used, guids).faulted
    ensures var out := ItemStep(item.filterType, item.returnCol, item.value, item.dataType,
                                st.allowNull[item], st.used, guids);
            var ts := Step(st, item, guids).tokens;
            && ts[..|st.tokens|] == st.tokens
            && (out.emitted ==>
                  && ts[|st.tokens|] == Literal(OpenGroup)
                  && ts[|st.tokens| + 1..|st.tokens| + 1 + |out.fragment|] == out.fragment
                  && ts[|st.tokens| + 1 + |out.fragment|] == Literal(")")
                  && ts[|ts| - 1] == Literal(")"))
            && (!out.emitted ==> ts == st.tokens)
  {
    var out := ItemStep(item.filterType, item.returnCol, item.value, item.dataType,
                        st.allowNull[item], st.used, guids);
    var ts := Step(st, item, guids).tokens;
    assert ts == st.tokens + ItemTokens(item.returnCol, out);
    if out.emitted {
      var tail: seq<Token> := if out.allowNull == 1 then [Literal(" or "), Column(item.returnCol), Literal(" is NULL ")] else [];
      assert ItemTokens(item.returnCol, out) == [Literal(OpenGroup)] + out.fragment + ([Literal(")")] + tail + [Literal(")")]);
    } else {
      assert ts == st.tokens + [];
    }
  }

  // ---------------------------------------------------------------------
  // Where the text comes from

  /** The fixed pieces inside the brackets of a condition. */
  const ConditionLiterals: set<string> := {" in (", ")", " >= ", "\n and ", " <= ", " = ",
                                           " is not NULL and ", " != '' ", " is NULL or ", " = '' "}

  /** A token an item may put inside its brackets: its own column, a fixed piece
      of SQL, or parameter names. */
  predicate ConditionToken(t: Token, col: string)
  {
    match t
    case Command(_) => false
    case Literal(s) => s in ConditionLiterals
    case Column(s) => s == col
    case Name(_) => true
    case NameList(_) => true
  }

  lemma ItemConditionTokens(t: string, col: string, value: seq<string>, dataType: string,
                            a: int, base: nat, guids: nat -> string)
    requires t in AllowedTypes
    ensures forall x :: x in ItemStep(t, col, value, dataType, a, base, guids).fragment ==> ConditionToken(x, col)
  {
    if t == "option" {
      assert ItemStep(t, col, value, dataType, a, base, guids) == OptionItem(col, value, a, base, guids);
      OptionTokens(col, Supply(guids, base, |value|));
    } else if t in RangeTypes {
      assert ItemStep(t, col, value, dataType, a, base, guids) == RangeItem(col, value, a, base, guids);
      RangeTokens(col, guids(base), guids(base + 1));
    } else if t == "checkbox" {
      assert ItemStep(t, col, value, dataType, a, base, guids) == CheckboxItem(col, value, a, base, guids);
      EqualsTokens(col, guids(base));
    } else {
      assert ItemStep(t, col, value, dataType, a, base, guids) == SelectItem(col, value, dataType, a, base, guids);
      SelectTokens(col, value, dataType, a, base, guids);
    }
  }

  lemma SelectTokens(col: string, value: seq<string>, dataType: string, a: int, base: nat,
                     guids: nat -> string)
    ensures forall x :: x in SelectItem(col, value, dataType, a, base, guids).fragment ==> ConditionToken(x, col)
  {
    EqualsTokens(col, guids(base));
    CompareTokens(col, true);
    CompareTokens(col, false);
  }

  lemma OptionTokens(col: string, ns: seq<string>)
    ensures forall x :: x in OptionFragment(col, ns) ==> ConditionToken(x, col)
  {
  }

  lemma RangeTokens(col: string, n0: string, n1: string)
    ensures forall x :: x in RangeFragment(col, n0, n1) ==> ConditionToken(x, col)
  {
  }

  lemma EqualsTokens(col: string, n: string)
    ensures forall x :: x in EqualsFragment(col, n) ==> ConditionToken(x, col)
  {
  }

  lemma CompareTokens(col: string, one: bool)
    ensures forall x :: x in CompareFragment(col, one) ==> ConditionToken(x, col)
  {
  }

  /** " is NULL " only ever closes the NULL alternative: it is in an item's tokens
      exactly when the item emitted a condition and its allowNull is 1. */
  lemma NullAlternative(t: string, col: string, value: seq<string>, dataType: string,
                        a: int, base: nat, guids: nat -> string)
    requires t in AllowedTypes
    ensures var r := ItemStep(t, col, value, dataType, a, base, guids);
            Literal(" is NULL ") in ItemTokens(col, r) <==> r.emitted && r.allowNull == 1
  {
    var r := ItemStep(t, col, value, dataType, a, base, guids);
    ItemConditionTokens(t, col, value, dataType, a, base, guids);
    assert !ConditionToken(Literal(" is NULL "), col);
    if r.emitted {
      var tail: seq<Token> := if r.allowNull == 1 then [Literal(" or "), Column(col), Literal(" is NULL ")] else [];
      assert ItemTokens(col, r) == [Literal(OpenGroup)] + r.fragment + [Literal(")")] + tail + [Literal(")")];
      if r.allowNull == 1 {
        assert tail[2] == Literal(" is NULL ");
      }
    }
  }

  /** The source of a token's text: initialCmd, a fixed piece of SQL, the column of
      some item, or parameter names. An operand value is none of these. */
  predicate Origin(t: Token, filter: seq<FilterViewModel>, initialCmd: string)
  {
    match t
    case Command(s) => s == initialCmd
    case Literal(s) => s in Literals
    case Column(s) => exists i :: 0 <= i < |filter| && filter[i].returnCol == s
    case Name(_) => true
    case NameList(_) => true
  }

  lemma ItemTokensOrigin(filter: seq<FilterViewModel>, i: nat, initialCmd: string,
                         a: int, base: nat, guids: nat -> string)
    requires i < |filter| && filter[i].filterType in AllowedTypes
    ensures var item := filter[i];
            var out := ItemStep(item.filterType, item.returnCol, item.value, item.dataType, a, base, guids);
            forall x :: x in ItemTokens(item.returnCol, out) ==> Origin(x, filter, initialCmd)
  {
    var item := filter[i];
    var col := item.returnCol;
    var r := ItemStep(item.filterType, col, item.value, item.dataType, a, base, guids);
    ItemConditionTokens(item.filterType, col, item.value, item.dataType, a, base, guids);
    forall x | x in ItemTokens(col, r)
      ensures Origin(x, filter, initialCmd)
    {
      if x.Column? {
        assert x.s == col;
        assert filter[i].returnCol == x.s;
      }
      if x in r.fragment && x.Literal? {
        assert x.s in ConditionLiterals;
      }
    }
  }

  /** No operand value enters the command text: every token comes from initialCmd,
      the fixed SQL, a column name or the parameter names. */
  lemma {:induction false} TextOrigin(filter: seq<FilterViewModel>, n: nat, start: map<FilterViewModel, int>,
                                      params0: map<string, ParamValue>, initialCmd: string, guids: nat -> string)
    requires n <= |filter| && Covers(filter, start)
    ensures forall x :: x in Run(filter, n, start, params0, initialCmd, guids).tokens ==> Origin(x, filter, initialCmd)
  {
    if n > 0 {
      TextOrigin(filter, n - 1, start, params0, initialCmd, guids);
      var st := Run(filter, n - 1, start, params0, initialCmd, guids);
      var item := filter[n - 1];
      if st.fault.None? && item.filterType in AllowedTypes {
        ItemTokensOrigin(filter, n - 1, initialCmd, st.allowNull[item], st.used, guids);
      }
    }
  }

  // ---------------------------------------------------------------------
  // Parameter names

  /** The names drawn are pairwise different when the draws are. */
  ghost predicate Injective(guids: nat -> string)
  {
    forall i, j :: guids(i) == guids(j) ==> i == j
  }

  lemma SupplyDistinct(guids: nat -> string, base: nat, n: nat)
    requires Injective(guids)
    ensures forall i, j :: 0 <= i < j < n ==> Supply(guids, base, n)[i] != Supply(guids, base, n)[j]
  {
    forall i, j | 0 <= i < j < n
      ensures Supply(guids, base, n)[i] != Supply(guids, base, n)[j]
    {
      SupplyAt(guids, base, n, i);
      SupplyAt(guids, base, n, j);
    }
  }

  lemma ItemTokensNames(col: string, out: ItemOut)
    ensures NamesIn(ItemTokens(col, out)) == if out.emitted then NamesIn(out.fragment) else []
  {
    if out.emitted {
      var back: seq<Token> := [Literal(")")]
        + (if out.allowNull == 1 then [Literal(" or "), Column(col), Literal(" is NULL ")] else [])
        + [Literal(")")];
      assert ItemTokens(col, out) == [Literal(OpenGroup)] + out.fragment + back;
      NamesAround([Literal(OpenGroup)], out.fragment, back);
    }
  }

  /** Tokens without names on either side add no names to the middle. */
  lemma NamesAround(front: seq<Token>, mid: seq<Token>, back: seq<Token>)
    requires forall i :: 0 <= i < |front| ==> NamesOf(front[i]) == []
    requires forall i :: 0 <= i < |back| ==> NamesOf(back[i]) == []
    ensures NamesIn(front + mid + back) == NamesIn(mid)
  {
    NamesInConcat(front + mid, back);
    NamesInConcat(front, mid);
    NamesInNone(front);
    NamesInNone(back);
  }

  /** The text applyFilter returns holds no operand value: each token is initialCmd,
      fixed SQL or an item's column, or carries only names drawn by this call. */
  lemma NoOperandText(filter: seq<FilterViewModel>, n: nat, start: map<FilterViewModel, int>,
                      params0: map<string, ParamValue>, initialCmd: string, guids: nat -> string)
    requires n <= |filter| && Covers(filter, start)
    requires Run(filter, n, start, params0, initialCmd, guids).fault.None?
    ensures var st := Run(filter, n, start, params0, initialCmd, guids);
            forall x :: x in st.tokens ==> Origin(x, filter, initialCmd) && Drawn(x, Supply(guids, 0, st.used))
  {
    var st := Run(filter, n, start, params0, initialCmd, guids);
    TextOrigin(filter, n, start, params0, initialCmd, guids);
    NamesDrawn(filter, n, start, params0, initialCmd, guids);
    forall x | x in st.tokens
      ensures Drawn(x, Supply(guids, 0, st.used))
    {
      var i :| 0 <= i < |st.tokens| && st.tokens[i] == x;
      NamesOfIn(st.tokens, i);
    }
  }

  /** Every name the token carries is among names. */
  predicate Drawn(t: Token, names: seq<string>)
  {
    forall k :: 0 <= k < |NamesOf(t)| ==> NamesOf(t)[k] in names
  }

  /** The names of one token are among the names of the sequence. */
  lemma {:induction false} NamesOfIn(ts: seq<Token>, i: nat)
    requires i < |ts|
    ensures Drawn(ts[i], NamesIn(ts))
  {
    if i > 0 {
      NamesOfIn(ts[1..], i - 1);
      assert ts[1..][i - 1] == ts[i];
    }
  }

  /** Without a fault, the names in the command are exactly the names drawn, in
      draw order, so with distinct draws each name appears once. */
  lemma {:induction false} NamesDrawn(filter: seq<FilterViewModel>, n: nat, start: map<FilterViewModel, int>,
                                      params0: map<string, ParamValue>, initialCmd: string, guids: nat -> string)
    requires n <= |filter| && Covers(filter, start)
    requires Run(filter, n, start, params0, initialCmd, guids).fault.None?
    ensures var st := Run(filter, n, start, params0, initialCmd, guids);
            NamesIn(st.tokens) == Supply(guids, 0, st.used)
  {
    if n == 0 {
      NamesInNone([Command(initialCmd)]);
    } else {
      var st := Run(filter, n - 1, start, params0, initialCmd, guids);
      assert st.fault.None?;
      NamesDrawn(filter, n - 1, start, params0, initialCmd, guids);
      StepNames(st, filter[n - 1], guids);
    }
  }

  /** One item without a fault appends exactly the names it draws. */
  lemma StepNames(st: State, item: FilterViewModel, guids: nat -> string)
    requires item in st.allowNull && st.fault.None? && Step(st, item, guids).fault.None?
    requires NamesIn(st.tokens) == Supply(guids, 0, st.used)
    ensures NamesIn(Step(st, item, guids).tokens) == Supply(guids, 0, Step(st, item, guids).used)
  {
    if item.filterType in AllowedTypes {
      var out := StepOut(st, item, guids);
      var extra := ItemTokens(item.returnCol, out);
      assert NamesIn(extra) == Supply(guids, st.used, out.used - st.used) by {
        ItemTokensNames(item.returnCol, out);
      }
      NamesAppend(st.tokens, extra, guids, st.used, out.used);
    }
  }

  /** Names drawn next, appended after the names drawn so far. */
  lemma NamesAppend(tokens: seq<Token>, extra: seq<Token>, guids: nat -> string, used: nat, used': nat)
    requires used <= used'
    requires NamesIn(tokens) == Supply(guids, 0, used)
    requires NamesIn(extra) == Supply(guids, used, used' - used)
    ensures NamesIn(tokens + extra) == Supply(guids, 0, used')
  {
    NamesInConcat(tokens, extra);
    SupplyJoin(guids, used, used');
  }

  /** The names drawn so far and the names drawn next are the names drawn in all. */
  lemma SupplyJoin(guids: nat -> string, used: nat, used': nat)
    requires used <= used'
    ensures Supply(guids, 0, used) + Supply(guids, used, used' - used) == Supply(guids, 0, used')
  {
    SupplyConcat(guids, 0, used, used' - used);
  }

  /** Step on a recognised item, in terms of what the item does. */
  lemma StepOut(st: State, item: FilterViewModel, guids: nat -> string) returns (out: ItemOut)
    requires item in st.allowNull && st.fault.None? && item.filterType in AllowedTypes
    ensures out == ItemStep(item.filterType, item.returnCol, item.value, item.dataType,
                            st.allowNull[item], st.used, guids)
    ensures Disciplined(out, st.allowNull[item], st.used, guids)
    ensures var r := Step(st, item, guids);
            && r.used == out.used && (r.fault.None? <==> !out.faulted)
            && (!out.faulted ==> r.tokens == st.tokens + ItemTokens(item.returnCol, out))
            && r.params == Bind(st.params, out.bindings)
            && r.allowNull == st.allowNull[item := out.allowNull]
  {
    out := ItemStep(item.filterType, item.returnCol, item.value, item.dataType, st.allowNull[item], st.used, guids);
  }

  /** The names Bind adds to a dictionary. */
  lemma {:induction false} BindKeys(m: map<string, ParamValue>, bs: seq<Binding>)
    ensures forall x :: x in Bind(m, bs) <==> x in m || x in BindingNames(bs)
  {
    if bs != [] {
      BindKeys(m, bs[..|bs| - 1]);
    }
  }

  /** Without a fault, the parameters are the caller's plus exactly the names drawn. */
  lemma {:induction false} ParamsDrawn(filter: seq<FilterViewModel>, n: nat, start: map<FilterViewModel, int>,
                                       params0: map<string, ParamValue>, initialCmd: string, guids: nat -> string)
    requires n <= |filter| && Covers(filter, start)
    requires Run(filter, n, start, params0, initialCmd, guids).fault.None?
    ensures var st := Run(filter, n, start, params0, initialCmd, guids);
            forall x :: x in st.params <==> x in params0 || x in Supply(guids, 0, st.used)
  {
    if n > 0 {
      var st := Run(filter, n - 1, start, params0, initialCmd, guids);
      assert st.fault.None?;
      ParamsDrawn(filter, n - 1, start, params0, initialCmd, guids);
      StepParams(st, filter[n - 1], params0, guids);
    }
  }

  /** One item without a fault binds exactly the names it draws. */
  lemma StepParams(st: State, item: FilterViewModel, params0: map<string, ParamValue>, guids: nat -> string)
    requires item in st.allowNull && st.fault.None? && Step(st, item, guids).fault.None?
    requires forall x :: x in st.params <==> x in params0 || x in Supply(guids, 0, st.used)
    ensures var r := Step(st, item, guids);
            forall x :: x in r.params <==> x in params0 || x in Supply(guids, 0, r.used)
  {
    if item.filterType in AllowedTypes {
      var out := StepOut(st, item, guids);
      ParamsAppend(st.params, params0, out.bindings, guids, st.used, out.used);
    }
  }

  /** Binding the names drawn next adds exactly them as keys. */
  lemma ParamsAppend(m: map<string, ParamValue>, params0: map<string, ParamValue>, bs: seq<Binding>,
                     guids: nat -> string, used: nat, used': nat)
    requires used <= used'
    requires forall x :: x in m <==> x in params0 || x in Supply(guids, 0, used)
    requires BindingNames(bs) == Supply(guids, used, used' - used)
    ensures forall x :: x in Bind(m, bs) <==> x in params0 || x in Supply(guids, 0, used')
  {
    SupplyJoin(guids, used, used');
    BindKeys(m, bs);
  }

  /** Each option value is bound, unchanged, to the name drawn for it. */
  lemma {:induction false} OptionValuesBound(m: map<string, ParamValue>, value: seq<string>, guids: nat -> string,
                                             base: nat, n: nat, k: nat)
    requires Injective(guids) && k < n <= |value|
    ensures guids(base + k) in Bind(m, OptionBindings(value, guids, base, n))
    ensures Bind(m, OptionBindings(value, guids, base, n))[guids(base + k)] == TextValue(value[k])
  {
    var bs := OptionBindings(value, guids, base, n);
    assert bs[..n - 1] == OptionBindings(value, guids, base, n - 1);
    if k < n - 1 {
      OptionValuesBound(m, value, guids, base, n - 1, k);
      assert guids(base + n - 1) != guids(base + k);
    }
  }

  // ---------------------------------------------------------------------
  // select

  /** A select with a parsed choice other than 32767 on a "string" column tests for
      presence (choice 1) or absence of text, and binds no parameter. */
  lemma SelectString(col: string, value: seq<string>, a: int, base: nat, guids: nat -> string, n: int)
    requires |value| > 0 && value[0] != "" && Numbers.TryParseInt16(value[0]) == Some(n) && n != NoSelection
    ensures var r := SelectItem(col, value, "string", a, base, guids);
            && r.emitted && !r.faulted && r.bindings == [] && r.used == base && r.allowNull == a
            && RenderAll(r.fragment) == if n == 1 then [col, " is not NULL and ", col, " != '' "]
                                      else [col, " is NULL or ", col, " = '' "]
  {
    RenderCompare(col, n == 1);
  }

  /** On a "bit" column it compares with one fresh parameter bound to the parsed number. */
  lemma SelectBit(col: string, value: seq<string>, a: int, base: nat, guids: nat -> string, n: int)
    requires |value| > 0 && value[0] != "" && Numbers.TryParseInt16(value[0]) == Some(n) && n != NoSelection
    ensures var r := SelectItem(col, value, "bit", a, base, guids);
            && r.emitted && !r.faulted && r.used == base + 1 && r.allowNull == a
            && r.bindings == [Binding(guids(base), Int16Value(n))]
            && RenderAll(r.fragment) == [col, " = ", guids(base)]
  {
    RenderEquals(col, guids(base));
  }

  /** A select emits nothing when its value is blank (which only allows NULL), not an
      Int16, 32767, or when the column is neither "string" nor "bit". */
  lemma SelectSilent(col: string, value: seq<string>, dataType: string, a: int, base: nat, guids: nat -> string)
    requires |value| > 0
    ensures var r := SelectItem(col, value, dataType, a, base, guids);
            !r.emitted <==> value[0] == "" || Numbers.TryParseInt16(value[0]).None?
                            || Numbers.TryParseInt16(value[0]) == Some(NoSelection)
                            || (dataType != "string" && dataType != "bit")
    ensures var r := SelectItem(col, value, dataType, a, base, guids);
            !r.emitted ==> r.bindings == [] && r.used == base && r.allowNull == (if value[0] == "" then 1 else a)
  {
  }

  // ---------------------------------------------------------------------
  // allowNull

  /** The tests of string.IsNullOrEmpty that set allowNull, per item type. */
  predicate BlankOperand(t: string, value: seq<string>)
    requires t in AllowedTypes && |value| >= Needed(t)
  {
    if t == "option" then exists k :: 0 <= k < |value| && value[k] == ""
    else if t in RangeTypes then value[0] == "" || value[1] == ""
    else value[0] == ""
  }

  /** An item that does not throw sets allowNull to 1 exactly on a blank operand
      and otherwise leaves it as it was. */
  lemma ItemAllowNull(t: string, col: string, value: seq<string>, dataType: string,
                      a: int, base: nat, guids: nat -> string)
    requires t in AllowedTypes && |value| >= Needed(t)
    ensures ItemStep(t, col, value, dataType, a, base, guids).allowNull == if BlankOperand(t, value) then 1 else a
  {
    if t == "option" {
      assert ("" in value) <==> exists k :: 0 <= k < |value| && value[k] == "";
    } else if t in RangeTypes {
      assert ItemStep(t, col, value, dataType, a, base, guids) == RangeItem(col, value, a, base, guids);
    }
  }

  /** allowNull is never reset: from one prefix to a longer one each item's value
      stays, or becomes 1. */
  lemma {:induction false} AllowNullOnlyRises(filter: seq<FilterViewModel>, k: nat, n: nat,
                                              start: map<FilterViewModel, int>, params0: map<string, ParamValue>,
                                              initialCmd: string, guids: nat -> string)
    requires k <= n <= |filter| && Covers(filter, start)
    ensures var before := Run(filter, k, start, params0, initialCmd, guids).allowNull;
            var after := Run(filter, n, start, params0, initialCmd, guids).allowNull;
            forall o :: o in start ==> after[o] == before[o] || after[o] == 1
    ensures var before := Run(filter, k, start, params0, initialCmd, guids).allowNull;
            var after := Run(filter, n, start, params0, initialCmd, guids).allowNull;
            forall o :: o in start && before[o] == 1 ==> after[o] == 1
    decreases n
  {
    if n > k {
      AllowNullOnlyRises(filter, k, n - 1, start, params0, initialCmd, guids);
      StepRises(Run(filter, n - 1, start, params0, initialCmd, guids), filter[n - 1], guids);
    }
  }

  /** One item keeps every allowNull, or sets it to 1. */
  lemma StepRises(st: State, item: FilterViewModel, guids: nat -> string)
    requires item in st.allowNull
    ensures forall o :: o in st.allowNull ==>
              Step(st, item, guids).allowNull[o] == st.allowNull[o] || Step(st, item, guids).allowNull[o] == 1
  {
    if st.fault.None? && item.filterType in AllowedTypes {
      var out := StepOut(st, item, guids);
    }
  }

  /** An item object whose allowNull a blank operand sets. */
  predicate Blanks(item: FilterViewModel)
  {
    && item.filterType in AllowedTypes && |item.value| >= Needed(item.filterType)
    && BlankOperand(item.filterType, item.value)
  }

  /** Without a fault, an item object ends with allowNull 1 exactly when it started
      with 1 or is some position of the filter with a blank operand. */
  lemma {:induction false} AllowNullIff(filter: seq<FilterViewModel>, n: nat, start: map<FilterViewModel, int>,
                                        params0: map<string, ParamValue>, initialCmd: string, guids: nat -> string)
    requires n <= |filter| && Covers(filter, start)
    requires Run(filter, n, start, params0, initialCmd, guids).fault.None?
    ensures var st := Run(filter, n, start, params0, initialCmd, guids);
            forall o :: o in start ==>
              (st.allowNull[o] == 1 <==> start[o] == 1 || exists i :: 0 <= i < n && filter[i] == o && Blanks(filter[i]))
  {
    if n > 0 {
      var st := Run(filter, n - 1, start, params0, initialCmd, guids);
      var st' := Run(filter, n, start, params0, initialCmd, guids);
      var item := filter[n - 1];
      assert st.fault.None?;
      AllowNullIff(filter, n - 1, start, params0, initialCmd, guids);
      StepAllowNull(st, item, guids);
      forall o | o in start
        ensures st'.allowNull[o] == 1 <==> start[o] == 1 || exists i :: 0 <= i < n && filter[i] == o && Blanks(filter[i])
      {
        if o == item && Blanks(item) {
          assert 0 <= n - 1 < n && filter[n - 1] == o && Blanks(filter[n - 1]);
        }
        if exists i :: 0 <= i < n && filter[i] == o && Blanks(filter[i]) {
          var i :| 0 <= i < n && filter[i] == o && Blanks(filter[i]);
          if i < n - 1 {
            assert 0 <= i < n - 1 && filter[i] == o && Blanks(filter[i]);
          }
        }
      }
    }
  }

  /** One item without a fault sets its own allowNull to 1 on a blank operand and
      touches nothing else. */
  lemma StepAllowNull(st: State, item: FilterViewModel, guids: nat -> string)
    requires item in st.allowNull && st.fault.None? && Step(st, item, guids).fault.None?
    ensures forall o :: o in st.allowNull ==>
              Step(st, item, guids).allowNull[o] == if o == item && Blanks(item) then 1 else st.allowNull[o]
  {
    if item.filterType in AllowedTypes {
      var out := StepOut(st, item, guids);
      ItemFaultIffShort(item.filterType, item.returnCol, item.value, item.dataType,
                        st.allowNull[item], st.used, guids);
      ItemAllowNull(item.filterType, item.returnCol, item.value, item.dataType,
                    st.allowNull[item], st.used, guids);
    }
  }
}
