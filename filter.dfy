// DBHandler.applyFilter: compiles a list of FilterViewModel items into SQL
// conditions appended to a command, binding option, range and checkbox
// operands (and the parsed Int16 of a "bit" select) to fresh parameter
// names, and recording on each item whether NULL is allowed.
//
// The model threads a State through the items (Run); the method
// ApplyFilter builds the token list the way the C# does and is proved to
// produce exactly what Run describes.

module Filter {
  import opened Wrappers
  import opened Text
  import opened Numbers

  /** The filter types applyFilter acts on; items of any other type are skipped. */
  const AllowedTypes: set<string> := {"option", "number", "date", "text", "checkbox", "select"}
  const RangeTypes: set<string> := {"number", "date", "text"}

  /** The Int16 value a select item uses for "no choice". */
  const NoSelection: int := 32767

  /** One filter of the user interface. Only allowNull is written by applyFilter. */
  class FilterViewModel {
    const filterType: string   // the C# property "type"
    const returnCol: string
    const value: seq<string>
    const dataType: string
    var allowNull: int

    constructor (filterType: string, returnCol: string, value: seq<string>, dataType: string, allowNull: int)
      ensures this.filterType == filterType && this.returnCol == returnCol
      ensures this.value == value && this.dataType == dataType && this.allowNull == allowNull
    {
      this.filterType := filterType;
      this.returnCol := returnCol;
      this.value := value;
      this.dataType := dataType;
      this.allowNull := allowNull;
    }
  }

  /** A value bound to a SQL parameter: an operand string, or a parsed select value. */
  datatype ParamValue = TextValue(s: string) | Int16Value(n: int)

  /** The caller's Dictionary<string, object> of SQL parameters. */
  class ParamDictionary {
    var entries: map<string, ParamValue>

    constructor (entries: map<string, ParamValue>)
      ensures this.entries == entries
    {
      this.entries := entries;
    }
  }

  // ---------------------------------------------------------------------
  // Tokens: the elements of lstCmd, by where their text comes from

  datatype Token =
    | Command(s: string)          // initialCmd
    | Literal(s: string)          // a fixed piece of SQL
    | Column(s: string)           // an item's returnCol
    | Name(n: string)             // one parameter name
    | NameList(ns: seq<string>)   // parameter names joined with ", "

  const OpenGroup: string := "\n and (("

  /** Every fixed piece of SQL applyFilter writes. */
  const Literals: set<string> := {OpenGroup, ")", " in (", " >= ", "\n and ", " <= ", " = ",
                                  " is not NULL and ", " != '' ", " is NULL or ", " = '' ",
                                  " or ", " is NULL "}

  function Render(t: Token): string
  {
    match t
    case Command(s) => s
    case Literal(s) => s
    case Column(s) => s
    case Name(n) => n
    case NameList(ns) => Join(ns, ", ")
  }

  function RenderAll(ts: seq<Token>): (r: seq<string>)
    ensures |r| == |ts|
  {
    if ts == [] then [] else [Render(ts[0])] + RenderAll(ts[1..])
  }

  lemma {:induction false} RenderAllConcat(a: seq<Token>, b: seq<Token>)
    ensures RenderAll(a + b) == RenderAll(a) + RenderAll(b)
  {
    if a == [] {
      assert a + b == b;
    } else {
      assert (a + b)[1..] == a[1..] + b;
      RenderAllConcat(a[1..], b);
    }
  }

  lemma {:induction false} RenderAllAt(ts: seq<Token>)
    ensures forall i :: 0 <= i < |ts| ==> RenderAll(ts)[i] == Render(ts[i])
  {
    if ts != [] {
      RenderAllAt(ts[1..]);
    }
  }

  /** The parameter names one token carries. */
  function NamesOf(t: Token): seq<string>
  {
    if t.Name? then [t.n] else if t.NameList? then t.ns else []
  }

  /** The parameter names the tokens carry, in order. */
  function NamesIn(ts: seq<Token>): seq<string>
  {
    if ts == [] then [] else NamesOf(ts[0]) + NamesIn(ts[1..])
  }

  /** Tokens without names carry none. */
  lemma {:induction false} NamesInNone(ts: seq<Token>)
    requires forall i :: 0 <= i < |ts| ==> NamesOf(ts[i]) == []
    ensures NamesIn(ts) == []
  {
    if ts != [] {
      NamesInNone(ts[1..]);
    }
  }

  lemma NamesInSingle(t: Token)
    ensures NamesIn([t]) == NamesOf(t)
  {
    assert [t][1..] == [];
  }

  lemma {:induction false} NamesInConcat(a: seq<Token>, b: seq<Token>)
    ensures NamesIn(a + b) == NamesIn(a) + NamesIn(b)
  {
    if a == [] {
      assert a + b == b;
    } else {
      assert (a + b)[1..] == a[1..] + b;
      NamesInConcat(a[1..], b);
    }
  }

  // ---------------------------------------------------------------------
  // Fresh parameter names and their bindings

  /** The names "@" + Guid.NewGuid() yields from the base-th draw on: guids(base), ..., guids(base + n - 1). */
  function Supply(guids: nat -> string, base: nat, n: nat): (r: seq<string>)
    ensures |r| == n
  {
    if n == 0 then [] else Supply(guids, base, n - 1) + [guids(base + n - 1)]
  }

  lemma {:induction false} SupplyAt(guids: nat -> string, base: nat, n: nat, k: nat)
    requires k < n
    ensures Supply(guids, base, n)[k] == guids(base + k)
  {
    if k < n - 1 {
      SupplyAt(guids, base, n - 1, k);
    }
  }

  /** Consecutive draws concatenate. */
  lemma {:induction false} SupplyConcat(guids: nat -> string, base: nat, a: nat, b: nat)
    ensures Supply(guids, base, a) + Supply(guids, base + a, b) == Supply(guids, base, a + b)
  {
    if b > 0 {
      SupplyConcat(guids, base, a, b - 1);
    }
  }

  datatype Binding = Binding(name: string, val: ParamValue)

  /** param[name] = val for each binding in turn. */
  function Bind(m: map<string, ParamValue>, bs: seq<Binding>): map<string, ParamValue>
  {
    if bs == [] then m else Bind(m, bs[..|bs| - 1])[bs[|bs| - 1].name := bs[|bs| - 1].val]
  }

  lemma BindOne(m: map<string, ParamValue>, b: Binding)
    ensures Bind(m, [b]) == m[b.name := b.val]
  {
    assert [b][..0] == [];
  }

  lemma BindTwo(m: map<string, ParamValue>, b0: Binding, b1: Binding)
    ensures Bind(m, [b0, b1]) == m[b0.name := b0.val][b1.name := b1.val]
  {
    assert [b0, b1][..1] == [b0];
    BindOne(m, b0);
  }

  function BindingNames(bs: seq<Binding>): (r: seq<string>)
    ensures |r| == |bs|
  {
    if bs == [] then [] else BindingNames(bs[..|bs| - 1]) + [bs[|bs| - 1].name]
  }

  /** The bindings of an option item's first n values. */
  function OptionBindings(value: seq<string>, guids: nat -> string, base: nat, n: nat): (r: seq<Binding>)
    requires n <= |value|
    ensures |r| == n
  {
    if n == 0 then []
    else OptionBindings(value, guids, base, n - 1) + [Binding(guids(base + n - 1), TextValue(value[n - 1]))]
  }

  /** The option bindings use the names drawn, in order. */
  lemma {:induction false} OptionBindingNames(value: seq<string>, guids: nat -> string, base: nat, n: nat)
    requires n <= |value|
    ensures BindingNames(OptionBindings(value, guids, base, n)) == Supply(guids, base, n)
  {
    if n > 0 {
      var r := OptionBindings(value, guids, base, n);
      assert r[..|r| - 1] == OptionBindings(value, guids, base, n - 1);
      OptionBindingNames(value, guids, base, n - 1);
    }
  }

  // ---------------------------------------------------------------------
  // One item

  /** What one recognised item does: whether it emits a condition, the tokens of the
      condition between the brackets, the parameters it binds, the draw counter after
      it, its new allowNull, and whether it throws (an operand index past value's end). */
  datatype ItemOut = ItemOut(emitted: bool, fragment: seq<Token>, bindings: seq<Binding>,
                             used: nat, allowNull: int, faulted: bool)

  /** The discipline every item keeps: the draw counter only grows, allowNull only
      becomes 1, a throwing item emits nothing and leaves allowNull alone, and without
      a fault the names drawn are exactly the names bound and the names emitted. */
  predicate Disciplined(r: ItemOut, a: int, base: nat, guids: nat -> string)
  {
    && base <= r.used
    && (r.allowNull == a || r.allowNull == 1)
    && (r.faulted ==> !r.emitted && r.fragment == [] && r.allowNull == a)
    && (!r.emitted ==> r.fragment == [])
    && (!r.faulted ==> BindingNames(r.bindings) == Supply(guids, base, r.used - base)
                       && NamesIn(r.fragment) == Supply(guids, base, r.used - base))
  }

  function ItemStep(t: string, col: string, value: seq<string>, dataType: string,
                    a: int, base: nat, guids: nat -> string): (r: ItemOut)
    requires t in AllowedTypes
    ensures Disciplined(r, a, base, guids)
  {
    if t == "option" then OptionItem(col, value, a, base, guids)
    else if t in RangeTypes then RangeItem(col, value, a, base, guids)
    else if t == "checkbox" then CheckboxItem(col, value, a, base, guids)
    else SelectItem(col, value, dataType, a, base, guids)
  }

  /** option: col in (names), one name per value, allowNull when a value is blank. */
  function OptionItem(col: string, value: seq<string>, a: int, base: nat, guids: nat -> string): (r: ItemOut)
    ensures Disciplined(r, a, base, guids)
  {
    var names := Supply(guids, base, |value|);
    OptionNames(col, names);
    OptionBindingNames(value, guids, base, |value|);
    ItemOut(true, OptionFragment(col, names), OptionBindings(value, guids, base, |value|),
            base + |value|, if "" in value then 1 else a, false)
  }

  /** number, date, text: col >= n0 and col <= n1; throws without two operands. */
  function RangeItem(col: string, value: seq<string>, a: int, base: nat, guids: nat -> string): (r: ItemOut)
    ensures Disciplined(r, a, base, guids)
  {
    if |value| == 0 then ItemOut(false, [], [], base + 1, a, true)
    else if |value| == 1 then ItemOut(false, [], [Binding(guids(base), TextValue(value[0]))], base + 2, a, true)
    else
      var n0, n1 := guids(base), guids(base + 1);
      var bindings := [Binding(n0, TextValue(value[0])), Binding(n1, TextValue(value[1]))];
      RangeNames(col, n0, n1);
      assert bindings[..1] == [Binding(n0, TextValue(value[0]))];
      ItemOut(true, RangeFragment(col, n0, n1), bindings, base + 2,
              if value[0] == "" || value[1] == "" then 1 else a, false)
  }

  /** checkbox: col = n0; throws without an operand. */
  function CheckboxItem(col: string, value: seq<string>, a: int, base: nat, guids: nat -> string): (r: ItemOut)
    ensures Disciplined(r, a, base, guids)
  {
    if |value| == 0 then ItemOut(false, [], [], base + 1, a, true)
    else
      EqualsNames(col, guids(base));
      ItemOut(true, EqualsFragment(col, guids(base)), [Binding(guids(base), TextValue(value[0]))],
              base + 1, if value[0] == "" then 1 else a, false)
  }

  /** select: a blank value only allows NULL; a parsed Int16 other than 32767 gives a
      test for empty text ("string") or col = n0 bound to the number ("bit"). */
  function SelectItem(col: string, value: seq<string>, dataType: string, a: int, base: nat,
                      guids: nat -> string): (r: ItemOut)
    ensures Disciplined(r, a, base, guids)
  {
    if |value| == 0 then ItemOut(false, [], [], base, a, true)
    else if value[0] == "" then ItemOut(false, [], [], base, 1, false)
    else match TryParseInt16(value[0])
      case Some(n) =>
        if n == NoSelection then ItemOut(false, [], [], base, a, false)
        else if dataType == "string" then
          CompareNames(col, n == 1);
          ItemOut(true, CompareFragment(col, n == 1), [], base, a, false)
        else if dataType == "bit" then
          EqualsNames(col, guids(base));
          ItemOut(true, EqualsFragment(col, guids(base)), [Binding(guids(base), Int16Value(n))], base + 1, a, false)
        else ItemOut(false, [], [], base, a, false)
      case None => ItemOut(false, [], [], base, a, false)
  }

  function OptionFragment(col: string, names: seq<string>): seq<Token>
  {
    [Column(col), Literal(" in ("), NameList(names), Literal(")")]
  }

  function RangeFragment(col: string, n0: string, n1: string): seq<Token>
  {
    [Column(col), Literal(" >= "), Name(n0), Literal("\n and "), Column(col), Literal(" <= "), Name(n1)]
  }

  function EqualsFragment(col: string, n: string): seq<Token>
  {
    [Column(col), Literal(" = "), Name(n)]
  }

  function CompareFragment(col: string, one: bool): seq<Token>
  {
    if one then [Column(col), Literal(" is not NULL and "), Column(col), Literal(" != '' ")]
    else [Column(col), Literal(" is NULL or "), Column(col), Literal(" = '' ")]
  }

  lemma OptionNames(col: string, names: seq<string>)
    ensures NamesIn(OptionFragment(col, names)) == names
  {
    NamesInFour(Column(col), Literal(" in ("), NameList(names), Literal(")"));
  }

  lemma RangeNames(col: string, n0: string, n1: string)
    ensures NamesIn(RangeFragment(col, n0, n1)) == [n0, n1]
  {
    var t := RangeFragment(col, n0, n1);
    NamesInFour(t[3], t[4], t[5], t[6]);
    assert t[3..] == [t[3], t[4], t[5], t[6]];
    NamesInCons(t[2], t[3..]);
    assert t[2..] == [t[2]] + t[3..];
    NamesInCons(t[1], t[2..]);
    assert t[1..] == [t[1]] + t[2..];
    NamesInCons(t[0], t[1..]);
    assert t == [t[0]] + t[1..];
  }

  lemma EqualsNames(col: string, n: string)
    ensures NamesIn(EqualsFragment(col, n)) == [n]
  {
    var t := EqualsFragment(col, n);
    NamesInCons(t[2], []);
    assert t[2..] == [t[2]] + [];
    NamesInCons(t[1], t[2..]);
    assert t[1..] == [t[1]] + t[2..];
    NamesInCons(t[0], t[1..]);
    assert t == [t[0]] + t[1..];
  }

  lemma NamesInCons(t: Token, ts: seq<Token>)
    ensures NamesIn([t] + ts) == NamesOf(t) + NamesIn(ts)
  {
    assert ([t] + ts)[1..] == ts;
  }

  lemma NamesInFour(a: Token, b: Token, c: Token, d: Token)
    ensures NamesIn([a, b, c, d]) == NamesOf(a) + (NamesOf(b) + (NamesOf(c) + NamesOf(d)))
  {
    assert NamesIn([d]) == NamesOf(d) by { assert [d][1..] == []; }
    assert NamesIn([c, d]) == NamesOf(c) + NamesIn([d]) by { assert [c, d][1..] == [d]; }
    assert NamesIn([b, c, d]) == NamesOf(b) + NamesIn([c, d]) by { assert [b, c, d][1..] == [c, d]; }
    assert NamesIn([a, b, c, d]) == NamesOf(a) + NamesIn([b, c, d]) by { assert [a, b, c, d][1..] == [b, c, d]; }
  }

  lemma CompareNames(col: string, one: bool)
    ensures NamesIn(CompareFragment(col, one)) == []
  {
    NamesInNone(CompareFragment(col, one));
  }

  /** The tokens an item leaves in lstCmd: nothing when it emits no condition (the
      opening "\n and ((" is removed again), otherwise the bracketed condition with
      the NULL alternative when allowNull is 1. */
  function ItemTokens(col: string, out: ItemOut): seq<Token>
  {
    if !out.emitted then []
    else [Literal(OpenGroup)] + out.fragment + [Literal(")")]
         + (if out.allowNull == 1 then [Literal(" or "), Column(col), Literal(" is NULL ")] else [])
         + [Literal(")")]
  }

  // ---------------------------------------------------------------------
  // The whole list

  /** The state after a prefix of the items: the tokens so far, the parameters, the
      allowNull of every item object, the draws used, and the fault if one was thrown. */
  datatype State = State(tokens: seq<Token>, params: map<string, ParamValue>,
                         allowNull: map<FilterViewModel, int>, used: nat, fault: Option<Fault>)

  function Step(st: State, item: FilterViewModel, guids: nat -> string): (r: State)
    requires item in st.allowNull
    ensures r.allowNull.Keys == st.allowNull.Keys
    ensures forall o :: o in st.allowNull && o != item ==> r.allowNull[o] == st.allowNull[o]
  {
    if st.fault.Some? || item.filterType !in AllowedTypes then st
    else
      var out := ItemStep(item.filterType, item.returnCol, item.value, item.dataType,
                          st.allowNull[item], st.used, guids);
      State(st.tokens + (if out.faulted then [] else ItemTokens(item.returnCol, out)),
            Bind(st.params, out.bindings),
            st.allowNull[item := out.allowNull],
            out.used,
            if out.faulted then Some(IndexOutOfRange) else None)
  }

  predicate Covers(filter: seq<FilterViewModel>, start: map<FilterViewModel, int>)
  {
    forall i :: 0 <= i < |filter| ==> filter[i] in start
  }

  /** applyFilter over filter[..n], from the callers' allowNull values start. */
  function Run(filter: seq<FilterViewModel>, n: nat, start: map<FilterViewModel, int>,
               params0: map<string, ParamValue>, initialCmd: string, guids: nat -> string): (r: State)
    requires n <= |filter| && Covers(filter, start)
    ensures r.allowNull.Keys == start.Keys
  {
    if n == 0 then State([Command(initialCmd)], params0, start, 0, None)
    else Step(Run(filter, n - 1, start, params0, initialCmd, guids), filter[n - 1], guids)
  }

  /** The command string: the tokens joined with single spaces. */
  function CommandText(st: State): string
  {
    Join(RenderAll(st.tokens), " ")
  }

  /** The allowNull value of every item object. */
  function AllowNulls(filter: seq<FilterViewModel>): (m: map<FilterViewModel, int>)
    reads set i | 0 <= i < |filter| :: filter[i]
    ensures Covers(filter, m)
  {
    map o | o in filter :: o.allowNull
  }

  // ---------------------------------------------------------------------
  // The method

  /** DBHandler.applyFilter(initialCmd, param, filter). Err(IndexOutOfRange) is the
      exception an item with too few operands throws; param and the items' allowNull
      then keep what was written before it. */
  method ApplyFilter(initialCmd: string, param: ParamDictionary, filter: seq<FilterViewModel>,
                     guids: nat -> string) returns (r: Result<string>)
    modifies param, set i | 0 <= i < |filter| :: filter[i]
    ensures var st := Run(filter, |filter|, old(AllowNulls(filter)), old(param.entries), initialCmd, guids);
            && (st.fault.None? ==> r == Ok(CommandText(st)))
            && (st.fault.Some? ==> r == Err(st.fault.value))
            && param.entries == st.params
            && forall i :: 0 <= i < |filter| ==> filter[i].allowNull == st.allowNull[filter[i]]
  {
    var lstCmd, faulted := ApplyItems(initialCmd, param, filter, guids);
    if faulted {
      r := Err(IndexOutOfRange);
    } else {
      r := Ok(Join(lstCmd, " "));
    }
  }

  /** The loop of applyFilter: lstCmd after every item, or the fault. */
  method ApplyItems(initialCmd: string, param: ParamDictionary, filter: seq<FilterViewModel>,
                    guids: nat -> string) returns (lstCmd: seq<string>, faulted: bool)
    modifies param, set i | 0 <= i < |filter| :: filter[i]
    ensures var st := Run(filter, |filter|, old(AllowNulls(filter)), old(param.entries), initialCmd, guids);
            && st.fault == (if faulted then Some(IndexOutOfRange) else None)
            && (!faulted ==> lstCmd == RenderAll(st.tokens))
            && param.entries == st.params
            && forall o :: o in old(AllowNulls(filter)) ==> o.allowNull == st.allowNull[o]
  {
    ghost var start := AllowNulls(filter);
    ghost var params0 := param.entries;
    ghost var st := Run(filter, 0, start, params0, initialCmd, guids);
    lstCmd := [initialCmd];
    var used := 0;
    faulted := false;
    var j := 0;
    while j < |filter| && !faulted
      invariant 0 <= j <= |filter|
      invariant st == Run(filter, j, start, params0, initialCmd, guids)
      invariant st.fault == if faulted then Some(IndexOutOfRange) else None
      invariant !faulted ==> lstCmd == RenderAll(st.tokens)
      invariant used == st.used && param.entries == st.params
      invariant forall o :: o in start ==> o.allowNull == st.allowNull[o]
    {
      lstCmd, used, faulted, st := ApplyStep(filter[j], lstCmd, param, guids, used, st);
      j := j + 1;
    }
    FinishRun(filter, j, start, params0, initialCmd, guids);
  }

  /** The loop stops after the last item or at the first fault; either way the
      state it reached is the state of the whole list. */
  lemma FinishRun(filter: seq<FilterViewModel>, j: nat, start: map<FilterViewModel, int>,
                  params0: map<string, ParamValue>, initialCmd: string, guids: nat -> string)
    requires j <= |filter| && Covers(filter, start)
    requires j == |filter| || Run(filter, j, start, params0, initialCmd, guids).fault.Some?
    ensures Run(filter, |filter|, start, params0, initialCmd, guids) == Run(filter, j, start, params0, initialCmd, guids)
  {
    if j < |filter| {
      RunStopsAtFault(filter, j, |filter|, start, params0, initialCmd, guids);
    }
  }

  /** One pass of the loop, against one Step of the fold. */
  method ApplyStep(item: FilterViewModel, lstCmd: seq<string>, param: ParamDictionary,
                   guids: nat -> string, used: nat, ghost st: State)
    returns (lstCmd': seq<string>, used': nat, faulted: bool, ghost st': State)
    requires st.fault.None? && item in st.allowNull
    requires forall o :: o in st.allowNull ==> o.allowNull == st.allowNull[o]
    requires lstCmd == RenderAll(st.tokens) && used == st.used && param.entries == st.params
    modifies param, item
    ensures st' == Step(st, item, guids)
    ensures st'.allowNull.Keys == st.allowNull.Keys
    ensures && st'.fault == (if faulted then Some(IndexOutOfRange) else None)
            && used' == st'.used && param.entries == st'.params
            && (forall o :: o in st.allowNull ==> o.allowNull == st'.allowNull[o])
            && (!faulted ==> lstCmd' == RenderAll(st'.tokens))
  {
    st' := Step(st, item, guids);
    if item.filterType !in AllowedTypes {
      return lstCmd, used, false, st';
    }
    ghost var out := ItemStep(item.filterType, item.returnCol, item.value, item.dataType,
                              item.allowNull, used, guids);
    RenderAllConcat(st.tokens, ItemTokens(item.returnCol, out));
    lstCmd', used', faulted := ApplyGroup(item, lstCmd, param, guids, used);
    forall o | o in st.allowNull
      ensures o.allowNull == st'.allowNull[o]
    {
      if o != item {
        assert o.allowNull == old(o.allowNull);
      }
    }
  }

  /** One pass of the loop for a recognised item: open the group, run the switch,
      then either remove the opening again or close the group. */
  method ApplyGroup(item: FilterViewModel, lstCmd: seq<string>, param: ParamDictionary,
                    guids: nat -> string, used: nat)
    returns (lstCmd': seq<string>, used': nat, faulted: bool)
    requires item.filterType in AllowedTypes
    modifies param, item
    ensures var out := ItemStep(item.filterType, item.returnCol, item.value, item.dataType,
                                old(item.allowNull), used, guids);
            && used' == out.used && faulted == out.faulted
            && param.entries == Bind(old(param.entries), out.bindings)
            && item.allowNull == out.allowNull
            && (!faulted ==> lstCmd' == lstCmd + RenderAll(ItemTokens(item.returnCol, out)))
  {
    ghost var out := ItemStep(item.filterType, item.returnCol, item.value, item.dataType,
                              item.allowNull, used, guids);
    lstCmd' := lstCmd + [OpenGroup];
    var quotePosition := |lstCmd'| - 1;
    var fragment, conditionAdded;
    fragment, conditionAdded, used', faulted := ApplyItem(item, param, guids, used);
    if faulted {
      return;
    }
    lstCmd' := CloseGroup(lstCmd' + fragment, quotePosition, conditionAdded, item.allowNull, item.returnCol,
                          lstCmd, fragment);
    ItemRendering(item.returnCol, out);
  }

  /** The end of one pass: drop the opening at quotePosition when no condition was
      added, otherwise close the bracket, with the NULL alternative when allowNull is 1. */
  method CloseGroup(lstCmd: seq<string>, quotePosition: nat, conditionAdded: bool, allowNull: int, col: string,
                    ghost prefix: seq<string>, ghost condition: seq<string>)
    returns (lstCmd': seq<string>)
    requires lstCmd == prefix + [OpenGroup] + condition && quotePosition == |prefix|
    ensures lstCmd' == prefix + (if conditionAdded then Group(condition, allowNull, col) else condition)
  {
    assert lstCmd[..quotePosition] == prefix && lstCmd[quotePosition + 1..] == condition;
    if !conditionAdded {
      lstCmd' := lstCmd[..quotePosition] + lstCmd[quotePosition + 1..];
      assert lstCmd' == prefix + condition;
    } else {
      ghost var tail: seq<string> := if allowNull == 1 then [" or ", col, " is NULL "] else [];
      lstCmd' := lstCmd + [")"];
      if allowNull == 1 {
        lstCmd' := lstCmd' + [" or ", col, " is NULL "];
      }
      lstCmd' := lstCmd' + [")"];
      assert lstCmd' == lstCmd + ([")"] + tail + [")"]);
      assert Group(condition, allowNull, col) == [OpenGroup] + condition + ([")"] + tail + [")"]);
      assert prefix + ([OpenGroup] + condition + ([")"] + tail + [")"]))
          == prefix + [OpenGroup] + condition + ([")"] + tail + [")"]);
    }
  }

  /** A condition in its brackets, with the NULL alternative when allowNull is 1. */
  function Group(condition: seq<string>, allowNull: int, col: string): (r: seq<string>)
    ensures |r| == |condition| + (if allowNull == 1 then 6 else 3)
    ensures r[0] == OpenGroup && r[1..|condition| + 1] == condition && r[|r| - 1] == ")"
  {
    [OpenGroup] + condition + [")"] + (if allowNull == 1 then [" or ", col, " is NULL "] else []) + [")"]
  }

  /** The rendered tokens of one item, as the method appends them. */
  lemma ItemRendering(col: string, out: ItemOut)
    ensures RenderAll(ItemTokens(col, out)) ==
            if !out.emitted then [] else Group(RenderAll(out.fragment), out.allowNull, col)
  {
    if out.emitted {
      var tail: seq<Token> := if out.allowNull == 1 then [Literal(" or "), Column(col), Literal(" is NULL ")] else [];
      RenderAllFive([Literal(OpenGroup)], out.fragment, [Literal(")")], tail, [Literal(")")]);
      RenderAllOne(Literal(OpenGroup));
      RenderAllOne(Literal(")"));
      RenderAllAt(tail);
    }
  }

  lemma RenderAllOne(t: Token)
    ensures RenderAll([t]) == [Render(t)]
  {
    assert [t][1..] == [];
  }

  lemma RenderAllFive(a: seq<Token>, b: seq<Token>, c: seq<Token>, d: seq<Token>, e: seq<Token>)
    ensures RenderAll(a + b + c + d + e) == RenderAll(a) + RenderAll(b) + RenderAll(c) + RenderAll(d) + RenderAll(e)
  {
    RenderAllConcat(a + b + c + d, e);
    RenderAllConcat(a + b + c, d);
    RenderAllConcat(a + b, c);
    RenderAllConcat(a, b);
  }

  /** After a fault the later items change nothing. */
  lemma {:induction false} RunStopsAtFault(filter: seq<FilterViewModel>, k: nat, n: nat,
                                           start: map<FilterViewModel, int>, params0: map<string, ParamValue>,
                                           initialCmd: string, guids: nat -> string)
    requires k <= n <= |filter| && Covers(filter, start)
    requires Run(filter, k, start, params0, initialCmd, guids).fault.Some?
    ensures Run(filter, n, start, params0, initialCmd, guids) == Run(filter, k, start, params0, initialCmd, guids)
    decreases n
  {
    if n > k {
      RunStopsAtFault(filter, k, n - 1, start, params0, initialCmd, guids);
    }
  }

  /** One recognised item: the switch of applyFilter. Returns the condition between
      the brackets rather than appending it. */
  method ApplyItem(item: FilterViewModel, param: ParamDictionary, guids: nat -> string, used: nat)
    returns (fragment: seq<string>, conditionAdded: bool, used': nat, faulted: bool)
    requires item.filterType in AllowedTypes
    modifies param, item
    ensures var out := ItemStep(item.filterType, item.returnCol, item.value, item.dataType,
                                old(item.allowNull), used, guids);
            && fragment == RenderAll(out.fragment) && conditionAdded == out.emitted
            && used' == out.used && faulted == out.faulted
            && param.entries == Bind(old(param.entries), out.bindings)
            && item.allowNull == out.allowNull
  {
    if item.filterType == "option" {
      fragment, used' := ApplyOption(item, param, guids, used);
      conditionAdded, faulted := true, false;
    } else if item.filterType in RangeTypes {
      fragment, conditionAdded, used', faulted := ApplyRange(item, param, guids, used);
    } else if item.filterType == "checkbox" {
      fragment, conditionAdded, used', faulted := ApplyCheckbox(item, param, guids, used);
    } else {
      fragment, conditionAdded, used', faulted := ApplySelect(item, param, guids, used);
    }
  }

  /** case "option". */
  method ApplyOption(item: FilterViewModel, param: ParamDictionary, guids: nat -> string, used: nat)
    returns (fragment: seq<string>, used': nat)
    modifies param, item
    ensures var out := OptionItem(item.returnCol, item.value, old(item.allowNull), used, guids);
            && fragment == RenderAll(out.fragment) && used' == out.used
            && param.entries == Bind(old(param.entries), out.bindings)
            && item.allowNull == out.allowNull
  {
    used' := used;
    fragment := [item.returnCol, " in ("];
    var lstParam := [];
    var i := 0;
    while i < |item.value|
      invariant 0 <= i <= |item.value|
      invariant used' == used + i
      invariant lstParam == Supply(guids, used, i)
      invariant param.entries == Bind(old(param.entries), OptionBindings(item.value, guids, used, i))
      invariant item.allowNull == if BlankAmong(item.value, i) then 1 else old(item.allowNull)
    {
      var guid := guids(used');
      used' := used' + 1;
      lstParam := lstParam + [guid];
      OptionBindStep(old(param.entries), item.value, guids, used, i);
      param.entries := param.entries[guid := TextValue(item.value[i])];
      if item.value[i] == "" {
        item.allowNull := 1;
      }
      i := i + 1;
    }
    BlankAmongAll(item.value);
    fragment := fragment + [Join(lstParam, ", "), ")"];
    assert OptionItem(item.returnCol, item.value, old(item.allowNull), used, guids).fragment
           == OptionFragment(item.returnCol, lstParam);
    RenderOption(item.returnCol, lstParam);
  }

  /** Some of the first n values is blank. */
  predicate BlankAmong(value: seq<string>, n: nat)
    requires n <= |value|
  {
    n > 0 && (value[n - 1] == "" || BlankAmong(value, n - 1))
  }

  lemma {:induction false} BlankAmongAll(value: seq<string>)
    ensures BlankAmong(value, |value|) <==> "" in value
  {
    BlankAmongPrefix(value, |value|);
    assert value[..|value|] == value;
  }

  lemma {:induction false} BlankAmongPrefix(value: seq<string>, n: nat)
    requires n <= |value|
    ensures BlankAmong(value, n) <==> "" in value[..n]
  {
    if n > 0 {
      BlankAmongPrefix(value, n - 1);
      assert value[..n] == value[..n - 1] + [value[n - 1]];
    }
  }

  /** One more option value adds one binding. */
  lemma OptionBindStep(m: map<string, ParamValue>, value: seq<string>, guids: nat -> string, base: nat, i: nat)
    requires i < |value|
    ensures Bind(m, OptionBindings(value, guids, base, i + 1))
            == Bind(m, OptionBindings(value, guids, base, i))[guids(base + i) := TextValue(value[i])]
  {
    var b := Binding(guids(base + i), TextValue(value[i]));
    assert OptionBindings(value, guids, base, i + 1) == OptionBindings(value, guids, base, i) + [b];
    BindSnoc(m, OptionBindings(value, guids, base, i), b);
  }

  lemma BindSnoc(m: map<string, ParamValue>, bs: seq<Binding>, b: Binding)
    ensures Bind(m, bs + [b]) == Bind(m, bs)[b.name := b.val]
  {
    assert (bs + [b])[..|bs|] == bs;
  }

  /** case "number", "date", "text". */
  method ApplyRange(item: FilterViewModel, param: ParamDictionary, guids: nat -> string, used: nat)
    returns (fragment: seq<string>, conditionAdded: bool, used': nat, faulted: bool)
    modifies param, item
    ensures var out := RangeItem(item.returnCol, item.value, old(item.allowNull), used, guids);
            && fragment == RenderAll(out.fragment) && conditionAdded == out.emitted
            && used' == out.used && faulted == out.faulted
            && param.entries == Bind(old(param.entries), out.bindings)
            && item.allowNull == out.allowNull
  {
    fragment, conditionAdded, faulted := [], false, false;
    var guid1 := guids(used);
    used' := used + 1;
    if |item.value| == 0 {
      faulted := true;
      return;
    }
    param.entries := param.entries[guid1 := TextValue(item.value[0])];
    var guid2 := guids(used');
    used' := used' + 1;
    if |item.value| == 1 {
      faulted := true;
      BindOne(old(param.entries), Binding(guid1, TextValue(item.value[0])));
      return;
    }
    param.entries := param.entries[guid2 := TextValue(item.value[1])];
    fragment := [item.returnCol, " >= ", guid1, "\n and ", item.returnCol, " <= ", guid2];
    if item.value[0] == "" || item.value[1] == "" {
      item.allowNull := 1;
    }
    conditionAdded := true;
    RenderRange(item.returnCol, guid1, guid2);
    BindTwo(old(param.entries), Binding(guid1, TextValue(item.value[0])), Binding(guid2, TextValue(item.value[1])));
  }

  /** case "checkbox". */
  method ApplyCheckbox(item: FilterViewModel, param: ParamDictionary, guids: nat -> string, used: nat)
    returns (fragment: seq<string>, conditionAdded: bool, used': nat, faulted: bool)
    modifies param, item
    ensures var out := CheckboxItem(item.returnCol, item.value, old(item.allowNull), used, guids);
            && fragment == RenderAll(out.fragment) && conditionAdded == out.emitted
            && used' == out.used && faulted == out.faulted
            && param.entries == Bind(old(param.entries), out.bindings)
            && item.allowNull == out.allowNull
  {
    fragment, conditionAdded, faulted := [], false, false;
    var guid3 := guids(used);
    used' := used + 1;
    if |item.value| == 0 {
      faulted := true;
      return;
    }
    fragment := [item.returnCol, " = ", guid3];
    param.entries := param.entries[guid3 := TextValue(item.value[0])];
    if item.value[0] == "" {
      item.allowNull := 1;
    }
    conditionAdded := true;
    RenderEquals(item.returnCol, guid3);
    BindOne(old(param.entries), Binding(guid3, TextValue(item.value[0])));
  }

  /** case "select". */
  method ApplySelect(item: FilterViewModel, param: ParamDictionary, guids: nat -> string, used: nat)
    returns (fragment: seq<string>, conditionAdded: bool, used': nat, faulted: bool)
    modifies param, item
    ensures var out := SelectItem(item.returnCol, item.value, item.dataType, old(item.allowNull), used, guids);
            && fragment == RenderAll(out.fragment) && conditionAdded == out.emitted
            && used' == out.used && faulted == out.faulted
            && param.entries == Bind(old(param.entries), out.bindings)
            && item.allowNull == out.allowNull
  {
    fragment, conditionAdded, used', faulted := [], false, used, false;
    if |item.value| == 0 {
      faulted := true;
      return;
    }
    if item.value[0] == "" {
      item.allowNull := 1;
    } else {
      var parsed := TryParseInt16(item.value[0]);
      if parsed.Some? && parsed.value != NoSelection {
        var selectedVal := parsed.value;
        if item.dataType == "string" {
          if selectedVal == 1 {
            fragment := [item.returnCol, " is not NULL and ", item.returnCol, " != '' "];
          } else {
            fragment := [item.returnCol, " is NULL or ", item.returnCol, " = '' "];
          }
          conditionAdded := true;
          RenderCompare(item.returnCol, selectedVal == 1);
        } else if item.dataType == "bit" {
          var guid4 := guids(used');
          used' := used' + 1;
          fragment := [item.returnCol, " = ", guid4];
          param.entries := param.entries[guid4 := Int16Value(selectedVal)];
          conditionAdded := true;
          RenderEquals(item.returnCol, guid4);
          BindOne(old(param.entries), Binding(guid4, Int16Value(selectedVal)));
        }
      }
    }
  }

  lemma RenderOption(col: string, names: seq<string>)
    ensures RenderAll(OptionFragment(col, names)) == [col, " in (", Join(names, ", "), ")"]
  {
    RenderAllAt(OptionFragment(col, names));
  }

  lemma RenderRange(col: string, n0: string, n1: string)
    ensures RenderAll(RangeFragment(col, n0, n1)) == [col, " >= ", n0, "\n and ", col, " <= ", n1]
  {
    RenderAllAt(RangeFragment(col, n0, n1));
  }

  lemma RenderEquals(col: string, n: string)
    ensures RenderAll(EqualsFragment(col, n)) == [col, " = ", n]
  {
    RenderAllAt(EqualsFragment(col, n));
  }

  lemma RenderCompare(col: string, one: bool)
    ensures RenderAll(CompareFragment(col, one))
            == if one then [col, " is not NULL and ", col, " != '' "] else [col, " is NULL or ", col, " = '' "]
  {
    RenderAllAt(CompareFragment(col, one));
  }
}
