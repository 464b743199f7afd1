// DBHandler.hideColumn, trimLength and the multi-row addTimeSpan: the in-place
// reshaping of a result set held as a header list, its rows and the entries
// dictionary from column name to column index.

module Tables {
  import opened Wrappers
  import opened Text
  import opened Runtime

  // ---------------------------------------------------------------------
  // Specification: which columns survive hideColumn, and where names sit

  /** The cells d[i], for i < n, whose column h[i] is not hidden by c, in order. */
  function Pick<T>(h: seq<string>, d: seq<T>, c: set<string>, n: nat): (r: seq<T>)
    requires n <= |h|
    requires forall i :: 0 <= i < n && h[i] !in c ==> i < |d|
    ensures |r| <= n
  {
    if n == 0 then [] else Pick(h, d, c, n - 1) + (if h[n - 1] in c then [] else [d[n - 1]])
  }

  /** The header with the columns named in c left out. */
  function Kept(h: seq<string>, c: set<string>): seq<string>
  {
    Pick(h, h, c, |h|)
  }

  /** The positions below n whose column survives, in increasing order. */
  function KeptIndices(h: seq<string>, c: set<string>, n: nat): (idx: seq<nat>)
    requires n <= |h|
    ensures forall k :: 0 <= k < |idx| ==> idx[k] < n && h[idx[k]] !in c
    ensures forall k, l :: 0 <= k < l < |idx| ==> idx[k] < idx[l]
    ensures forall i :: 0 <= i < n && h[i] !in c ==> i in idx
  {
    if n == 0 then [] else KeptIndices(h, c, n - 1) + (if h[n - 1] in c then [] else [n - 1])
  }

  /** Pick takes exactly the cells at the surviving positions. */
  lemma {:induction false} PickAt<T>(h: seq<string>, d: seq<T>, c: set<string>, n: nat)
    requires n <= |h|
    requires forall i :: 0 <= i < n && h[i] !in c ==> i < |d|
    ensures var idx := KeptIndices(h, c, n);
            |Pick(h, d, c, n)| == |idx| &&
            forall k :: 0 <= k < |idx| ==> idx[k] < |d| && Pick(h, d, c, n)[k] == d[idx[k]]
  {
    if n > 0 {
      PickAt(h, d, c, n - 1);
    }
  }

  /** entries rebuilt from a header: each name maps to the position of its last occurrence. */
  function Index(h: seq<string>): (m: map<string, int>)
    ensures forall x :: x in m <==> x in h
    ensures forall x :: x in m ==> 0 <= m[x] < |h| && h[m[x]] == x
    ensures forall x, j :: x in m && m[x] < j < |h| ==> h[j] != x
    decreases |h|
  {
    if h == [] then map[] else Index(h[..|h| - 1])[h[|h| - 1] := |h| - 1]
  }

  predicate Distinct(h: seq<string>)
  {
    forall i, j :: 0 <= i < j < |h| ==> h[i] != h[j]
  }

  /** With distinct column names, entries[header[k]] == k. */
  lemma IndexDistinct(h: seq<string>, k: nat)
    requires Distinct(h) && k < |h|
    ensures Index(h)[h[k]] == k
  {
    assert h[k] in Index(h);
  }

  /** Hiding keeps distinct names distinct. */
  lemma KeptDistinct(h: seq<string>, c: set<string>)
    requires Distinct(h)
    ensures Distinct(Kept(h, c))
  {
    var idx := KeptIndices(h, c, |h|);
    PickAt(h, h, c, |h|);
    var r := Kept(h, c);
    forall k, l | 0 <= k < l < |r|
      ensures r[k] != r[l]
    {
      assert idx[k] < idx[l];
    }
  }

  /** hideColumn, single row: header and data keep the same surviving positions, in
      lockstep, so the data has the new header's length and the k-th name labels the
      k-th cell; every position whose name is not hidden survives. */
  lemma HideRecordLockstep(h: seq<string>, d: seq<string>, c: set<string>)
    requires forall i :: 0 <= i < |h| && h[i] !in c ==> i < |d|
    ensures var idx := KeptIndices(h, c, |h|);
            var (h', d') := (Kept(h, c), Pick(h, d, c, |h|));
            |h'| == |d'| == |idx| &&
            (forall k :: 0 <= k < |idx| ==> h'[k] == h[idx[k]] && h'[k] !in c && d'[k] == d[idx[k]]) &&
            (forall i :: 0 <= i < |h| && h[i] !in c ==> i in idx)
  {
    PickAt(h, h, c, |h|);
    PickAt(h, d, c, |h|);
  }

  /** hideColumn, several rows: a row as long as the header stays as long as the new
      header, and each row keeps exactly its cells in surviving columns. */
  lemma HideRowLockstep(h: seq<string>, row: seq<string>, c: set<string>)
    requires |row| == |h|
    ensures var idx := KeptIndices(h, c, |h|);
            var row' := Pick(h, row, c, |row|);
            |row'| == |Kept(h, c)| == |idx| &&
            forall k :: 0 <= k < |idx| ==> row'[k] == row[idx[k]]
  {
    PickAt(h, h, c, |h|);
    PickAt(h, row, c, |h|);
  }

  /** Hiding nothing keeps the header; hiding twice is hiding once. */
  lemma {:induction false} KeptNothing(h: seq<string>, c: set<string>)
    requires forall i :: 0 <= i < |h| ==> h[i] !in c
    ensures Kept(h, c) == h
  {
    PickPrefix(h, c, |h|);
  }

  lemma {:induction false} PickPrefix(h: seq<string>, c: set<string>, n: nat)
    requires n <= |h|
    requires forall i :: 0 <= i < |h| ==> h[i] !in c
    ensures Pick(h, h, c, n) == h[..n]
  {
    if n > 0 {
      PickPrefix(h, c, n - 1);
      assert h[..n] == h[..n - 1] + [h[n - 1]];
    }
  }

  lemma KeptIdempotent(h: seq<string>, c: set<string>)
    ensures Kept(Kept(h, c), c) == Kept(h, c)
  {
    var r := Kept(h, c);
    PickAt(h, h, c, |h|);
    KeptNothing(r, c);
  }

  /** Hiding distributes over concatenated headers. */
  lemma {:induction false} KeptConcat(a: seq<string>, b: seq<string>, c: set<string>)
    ensures Kept(a + b, c) == Kept(a, c) + Kept(b, c)
    decreases |b|
  {
    if b == [] {
      assert a + b == a;
    } else {
      var n := |b| - 1;
      var b0 := b[..n];
      assert (a + b)[..|a + b| - 1] == a + b0;
      KeptConcat(a, b0, c);
      PickSamePrefix(a + b, a + b0, c, |a + b0|);
      PickSamePrefix(b, b0, c, n);
    }
  }

  /** Pick up to n only looks at the first n names. */
  lemma {:induction false} PickSamePrefix(h: seq<string>, g: seq<string>, c: set<string>, n: nat)
    requires n <= |h| && n <= |g| && h[..n] == g[..n]
    ensures Pick(h, h, c, n) == Pick(g, g, c, n)
  {
    if n > 0 {
      assert h[n - 1] == h[..n][n - 1] == g[n - 1];
      assert h[..n - 1] == g[..n - 1];
      PickSamePrefix(h, g, c, n - 1);
    }
  }

  // ---------------------------------------------------------------------
  // Specification: trimLength on one cell

  const AnchorPrefix: string := "<a href="

  /** The cell is cut: longer than the limit, its column not exempt, and not a link. */
  predicate ShouldTrim(header: seq<string>, j: nat, cell: string, limit: int, except: Option<set<string>>)
  {
    && |cell| > limit
    && (except.None? || (j < |header| && header[j] !in except.value))
    && !StartsWith(cell, AnchorPrefix)
  }

  /** One cell of trimLength. Err when the C# throws: header[j] past the header's end,
      Substring(0, 8) on a cell shorter than 8, or Substring(0, limit) with a negative
      limit. */
  function TrimCell(header: seq<string>, j: nat, cell: string, limit: int, except: Option<set<string>>): (r: Result<string>)
    ensures r.Err? ==> r.fault == IndexOutOfRange
    ensures r.Ok? && ShouldTrim(header, j, cell, limit, except) ==> 0 <= limit < |cell| && r.value == cell[..limit] + "..."
    ensures r.Ok? && !ShouldTrim(header, j, cell, limit, except) ==> r.value == cell
  {
    if |cell| <= limit then Ok(cell)
    else if except.Some? && j >= |header| then Err(IndexOutOfRange)
    else if except.Some? && header[j] in except.value then Ok(cell)
    else if |cell| < 8 then Err(IndexOutOfRange)
    else if cell[..8] == AnchorPrefix then Ok(cell)
    else if limit < 0 then Err(IndexOutOfRange)
    else Ok(cell[..limit] + "...")
  }

  /** With a limit of at least 7 every cell can be trimmed without a fault, except when
      a label for its column is missing from the header. */
  lemma TrimCellSafe(header: seq<string>, j: nat, cell: string, limit: int, except: Option<set<string>>)
    requires limit >= 7
    requires except.Some? ==> j < |header|
    ensures TrimCell(header, j, cell, limit, except).Ok?
  {
  }

  /** Trimming twice gives the same string as trimming once. A cut cell may be cut
      again, but only to itself. */
  lemma TrimCellIdempotent(header: seq<string>, j: nat, cell: string, limit: int, except: Option<set<string>>)
    requires limit >= 5
    requires TrimCell(header, j, cell, limit, except).Ok?
    ensures var t := TrimCell(header, j, cell, limit, except).value;
            TrimCell(header, j, t, limit, except) == Ok(t)
  {
    var t := TrimCell(header, j, cell, limit, except).value;
    if ShouldTrim(header, j, cell, limit, except) {
      assert |t| == limit + 3 >= 8;
      if limit >= 8 {
        assert t[..8] == cell[..8];
      } else {
        assert t[7] == '.';
        assert AnchorPrefix[7] == '=';
      }
      assert t[..limit] == cell[..limit];
    }
  }

  /** Every cell of the row can be trimmed without a fault. */
  predicate RowTrimmable(header: seq<string>, row: seq<string>, limit: int, except: Option<set<string>>)
  {
    forall j :: 0 <= j < |row| ==> TrimCell(header, j, row[j], limit, except).Ok?
  }

  /** The row after trimLength. */
  function TrimRow(header: seq<string>, row: seq<string>, limit: int, except: Option<set<string>>): (r: seq<string>)
    requires RowTrimmable(header, row, limit, except)
    ensures |r| == |row|
  {
    seq(|row|, j requires 0 <= j < |row| => TrimCell(header, j, row[j], limit, except).value)
  }

  /** Trimming a row twice gives the row trimmed once. */
  lemma TrimRowIdempotent(header: seq<string>, row: seq<string>, limit: int, except: Option<set<string>>)
    requires limit >= 5 && RowTrimmable(header, row, limit, except)
    ensures var t := TrimRow(header, row, limit, except);
            RowTrimmable(header, t, limit, except) && TrimRow(header, t, limit, except) == t
  {
    var t := TrimRow(header, row, limit, except);
    forall j | 0 <= j < |t|
      ensures TrimCell(header, j, t[j], limit, except) == Ok(t[j])
    {
      TrimCellIdempotent(header, j, row[j], limit, except);
    }
  }

  // ---------------------------------------------------------------------
  // Specification: the multi-row addTimeSpan

  const FullDayCol: string := "isFullDay"
  const StartCol: string := "Start Time"
  const EndCol: string := "End Time"
  const WorkingDaysCol: string := "Working days"
  const HolidaysCol: string := "Pub Holidays"

  /** s with a and b inserted at position k. */
  function InsertTwo<T>(s: seq<T>, k: nat, a: T, b: T): (r: seq<T>)
    requires k <= |s|
    ensures |r| == |s| + 2 && r[k] == a && r[k + 1] == b
    ensures r[..k] + r[k + 2..] == s
  {
    var r := s[..k] + [a, b] + s[k..];
    assert r[..k] == s[..k] && r[k + 2..] == s[k..];
    r
  }

  /** The column indices a row is read at, all present and inside the row, both
      times parse, and, unless isFullDay is "false", both dates format. */
  predicate RowReady(row: seq<string>, entries: map<string, int>, dateFormat: string, p: Platform)
  {
    && FullDayCol in entries && StartCol in entries && EndCol in entries
    && 0 <= entries[FullDayCol] < |row|
    && 0 <= entries[StartCol] < |row|
    && 0 <= entries[EndCol] < |row|
    && p.parseExact(row[entries[StartCol]], dateFormat + " HH:mm").Some?
    && p.parseExact(row[entries[EndCol]], dateFormat + " HH:mm").Some?
    && (row[entries[FullDayCol]] != "false" ==>
          && p.formatDateTime(p.datePart(p.parseExact(row[entries[StartCol]], dateFormat + " HH:mm").value), dateFormat).Some?
          && p.formatDateTime(p.datePart(p.parseExact(row[entries[EndCol]], dateFormat + " HH:mm").value), dateFormat).Some?)
  }

  /** A row with Start Time and End Time cut to the date unless isFullDay is "false". */
  function Reformatted(row: seq<string>, entries: map<string, int>, dateFormat: string, p: Platform): (r: seq<string>)
    requires RowReady(row, entries, dateFormat, p)
    ensures |r| == |row|
    ensures row[entries[FullDayCol]] == "false" ==> r == row
  {
    var s, e := entries[StartCol], entries[EndCol];
    var start := p.parseExact(row[s], dateFormat + " HH:mm").value;
    var end := p.parseExact(row[e], dateFormat + " HH:mm").value;
    if row[entries[FullDayCol]] == "false" then row
    else row[s := p.formatDateTime(p.datePart(start), dateFormat).value][e := p.formatDateTime(p.datePart(end), dateFormat).value]
  }

  /** A row after addTimeSpan: the reformatted row with the working-day count and the
      holiday list that holidayCount reports inserted after End Time. */
  function ExtendedRow(row: seq<string>, entries: map<string, int>, dateFormat: string, p: Platform): (r: seq<string>)
    requires RowReady(row, entries, dateFormat, p)
    ensures var e := entries[EndCol];
            |r| == |row| + 2 && r[..e + 1] + r[e + 3..] == Reformatted(row, entries, dateFormat, p)
  {
    var start := p.parseExact(row[entries[StartCol]], dateFormat + " HH:mm").value;
    var end := p.parseExact(row[entries[EndCol]], dateFormat + " HH:mm").value;
    var (span, holidays) := p.holidayCount(start, end, row[entries[FullDayCol]] != "false");
    InsertTwo(Reformatted(row, entries, dateFormat, p), entries[EndCol] + 1, span, holidays)
  }

  /** The two inserted columns are exactly the ones hideColumn can take out again. */
  lemma HideInsertedColumns(h: seq<string>, k: nat)
    requires k <= |h|
    requires WorkingDaysCol !in h && HolidaysCol !in h
    ensures Kept(InsertTwo(h, k, WorkingDaysCol, HolidaysCol), {WorkingDaysCol, HolidaysCol}) == h
  {
    HideInsertedPair(h, k, WorkingDaysCol, HolidaysCol);
  }

  lemma HideInsertedPair(h: seq<string>, k: nat, x: string, y: string)
    requires k <= |h| && x !in h && y !in h
    ensures Kept(InsertTwo(h, k, x, y), {x, y}) == h
  {
    var c := {x, y};
    var mid := [x, y];
    var front, back := h[..k], h[k..];
    var w := InsertTwo(h, k, x, y);
    assert w == front + (mid + back);
    assert Kept(front, c) == front by { KeptNothing(front, c); }
    assert Kept(back, c) == back by { KeptNothing(back, c); }
    assert Kept(mid, c) == [] by { assert Pick(mid, mid, c, 1) == []; }
    assert Kept(mid + back, c) == back by { KeptConcat(mid, back, c); }
    assert Kept(w, c) == front + back by { KeptConcat(front, mid + back, c); }
    assert front + back == h;
  }

  // ---------------------------------------------------------------------
  // The in-memory result sets

  /** The single-row form: header, one data list and entries. */
  class Record {
    var header: seq<string>
    var data: seq<string>
    var entries: map<string, int>

    constructor (header: seq<string>, data: seq<string>, entries: map<string, int>)
      ensures this.header == header && this.data == data && this.entries == entries
    {
      this.header := header;
      this.data := data;
      this.entries := entries;
    }

    /** hideColumn(header, data, entries, colName), single-row overload. */
    method HideColumn(colName: set<string>)
      requires forall i :: 0 <= i < |header| && header[i] !in colName ==> i < |data|
      modifies this
      ensures header == Kept(old(header), colName)
      ensures data == Pick(old(header), old(data), colName, |old(header)|)
      ensures entries == Index(header)
    {
      var tempHeader := header;
      var tempData := data;
      entries := map[];
      header := [];
      data := [];
      var i := 0;
      while i < |tempHeader|
        invariant 0 <= i <= |tempHeader|
        invariant header == Pick(tempHeader, tempHeader, colName, i)
        invariant data == Pick(tempHeader, tempData, colName, i)
        invariant entries == Index(header)
      {
        if tempHeader[i] !in colName {
          header := header + [tempHeader[i]];
          data := data + [tempData[i]];
          assert header[..|header| - 1] == Pick(tempHeader, tempHeader, colName, i);
          entries := entries[tempHeader[i] := |header| - 1];
        }
        i := i + 1;
      }
    }

    /** trimLength(header, data, limit, except), single-row overload. */
    method TrimLength(limit: int, except: Option<set<string>>)
      requires RowTrimmable(header, data, limit, except)
      modifies this`data
      ensures data == TrimRow(header, old(data), limit, except)
    {
      var i := 0;
      while i < |data|
        invariant 0 <= i <= |data| == |old(data)|
        invariant forall j :: 0 <= j < i ==> data[j] == TrimCell(header, j, old(data)[j], limit, except).value
        invariant forall j :: i <= j < |data| ==> data[j] == old(data)[j]
      {
        if |data[i]| > limit
           && (except.None? || header[i] !in except.value)
           && !(data[i][..8] == AnchorPrefix)
        {
          data := data[i := data[i][..limit] + "..."];
        }
        i := i + 1;
      }
    }
  }

  /** The multi-row form: header, a list of rows and entries. */
  class Table {
    var header: seq<string>
    var rows: seq<seq<string>>
    var entries: map<string, int>

    constructor (header: seq<string>, rows: seq<seq<string>>, entries: map<string, int>)
      ensures this.header == header && this.rows == rows && this.entries == entries
    {
      this.header := header;
      this.rows := rows;
      this.entries := entries;
    }

    /** hideColumn(header, data, entries, colName), multi-row overload. */
    method HideColumn(colName: set<string>)
      requires forall i :: 0 <= i < |rows| ==> |rows[i]| <= |header|
      modifies this
      ensures header == Kept(old(header), colName)
      ensures entries == Index(header)
      ensures |rows| == |old(rows)|
      ensures forall i :: 0 <= i < |rows| ==> rows[i] == Pick(old(header), old(rows)[i], colName, |old(rows)[i]|)
    {
      var tempHeader := header;
      var tempData := rows;
      header := [];
      rows := [];
      entries := map[];
      var i := 0;
      while i < |tempHeader|
        invariant 0 <= i <= |tempHeader|
        invariant rows == []
        invariant header == Pick(tempHeader, tempHeader, colName, i)
        invariant entries == Index(header)
      {
        if tempHeader[i] !in colName {
          header := header + [tempHeader[i]];
          assert header[..|header| - 1] == Pick(tempHeader, tempHeader, colName, i);
          entries := entries[tempHeader[i] := |header| - 1];
        }
        i := i + 1;
      }
      i := 0;
      while i < |tempData|
        invariant 0 <= i <= |tempData|
        invariant header == Pick(tempHeader, tempHeader, colName, |tempHeader|)
        invariant entries == Index(header)
        invariant |rows| == i
        invariant forall k :: 0 <= k < i ==> rows[k] == Pick(tempHeader, tempData[k], colName, |tempData[k]|)
      {
        var newRow := KeepCells(tempHeader, tempData[i], colName);
        rows := rows + [newRow];
        i := i + 1;
      }
    }

    /** The inner loop of the multi-row hideColumn: the cells of one row whose column
        is not hidden. */
    static method KeepCells(h: seq<string>, row: seq<string>, colName: set<string>) returns (newRow: seq<string>)
      requires |row| <= |h|
      ensures newRow == Pick(h, row, colName, |row|)
    {
      newRow := [];
      var j := 0;
      while j < |row|
        invariant 0 <= j <= |row|
        invariant newRow == Pick(h, row, colName, j)
      {
        if h[j] !in colName {
          newRow := newRow + [row[j]];
        }
        j := j + 1;
      }
    }

    /** trimLength(header, data, limit, except), multi-row overload. */
    method TrimLength(limit: int, except: Option<set<string>>)
      requires forall i :: 0 <= i < |rows| ==> RowTrimmable(header, rows[i], limit, except)
      modifies this`rows
      ensures |rows| == |old(rows)|
      ensures forall i :: 0 <= i < |rows| ==> rows[i] == TrimRow(header, old(rows)[i], limit, except)
    {
      var i := 0;
      while i < |rows|
        invariant 0 <= i <= |rows| == |old(rows)|
        invariant forall k :: 0 <= k < i ==> rows[k] == TrimRow(header, old(rows)[k], limit, except)
        invariant forall k :: i <= k < |rows| ==> rows[k] == old(rows)[k]
      {
        var j := 0;
        while j < |rows[i]|
          invariant |rows| == |old(rows)| && i < |rows|
          invariant 0 <= j <= |rows[i]| == |old(rows)[i]|
          invariant forall l :: 0 <= l < j ==> rows[i][l] == TrimCell(header, l, old(rows)[i][l], limit, except).value
          invariant forall l :: j <= l < |rows[i]| ==> rows[i][l] == old(rows)[i][l]
          invariant forall k :: 0 <= k < i ==> rows[k] == TrimRow(header, old(rows)[k], limit, except)
          invariant forall k :: i < k < |rows| ==> rows[k] == old(rows)[k]
        {
          var cell := rows[i][j];
          if |cell| > limit
             && (except.None? || header[j] !in except.value)
             && !(cell[..8] == AnchorPrefix)
          {
            rows := rows[i := rows[i][j := cell[..limit] + "..."]];
          }
          j := j + 1;
        }
        assert rows[i] == TrimRow(header, old(rows)[i], limit, except);
        i := i + 1;
      }
    }

    /** addTimeSpan(header, data, entries, dateFormat), multi-row overload. Without an
        isFullDay column nothing changes; otherwise every row gets the two columns
        after End Time, the header gets their names, and entries is rebuilt. */
    method AddTimeSpan(dateFormat: string, p: Platform)
      requires FullDayCol in entries ==>
                 && EndCol in entries && 0 <= entries[EndCol] + 1 <= |header|
                 && forall i :: 0 <= i < |rows| ==> RowReady(rows[i], entries, dateFormat, p)
      modifies this
      ensures FullDayCol !in old(entries) ==>
                header == old(header) && rows == old(rows) && entries == old(entries)
      ensures FullDayCol in old(entries) ==>
                && header == InsertTwo(old(header), old(entries)[EndCol] + 1, WorkingDaysCol, HolidaysCol)
                && |rows| == |old(rows)|
                && (forall i :: 0 <= i < |rows| ==> rows[i] == ExtendedRow(old(rows)[i], old(entries), dateFormat, p))
                && entries == Index(header)
    {
      if FullDayCol !in entries {
        return;
      }
      var i := 0;
      while i < |rows|
        invariant 0 <= i <= |rows| == |old(rows)|
        invariant header == old(header) && entries == old(entries)
        invariant forall k :: 0 <= k < i ==> rows[k] == ExtendedRow(old(rows)[k], entries, dateFormat, p)
        invariant forall k :: i <= k < |rows| ==> rows[k] == old(rows)[k]
      {
        var row := ExtendRow(rows[i], entries, dateFormat, p);
        rows := rows[i := row];
        i := i + 1;
      }
      var e := entries[EndCol];
      header := header[..e + 1] + [WorkingDaysCol] + header[e + 1..];
      header := header[..e + 2] + [HolidaysCol] + header[e + 2..];
      assert header == InsertTwo(old(header), e + 1, WorkingDaysCol, HolidaysCol);
      entries := Reindex(header);
    }

    /** entries.Clear() followed by entries[header[i]] = i for every position. */
    static method Reindex(header: seq<string>) returns (entries: map<string, int>)
      ensures entries == Index(header)
    {
      entries := map[];
      var i := 0;
      while i < |header|
        invariant 0 <= i <= |header|
        invariant entries == Index(header[..i])
      {
        assert header[..i + 1][..i] == header[..i];
        entries := entries[header[i] := i];
        i := i + 1;
      }
      assert header[..|header|] == header;
    }

    /** The loop body of the multi-row addTimeSpan for one row. */
    static method ExtendRow(row: seq<string>, entries: map<string, int>, dateFormat: string, p: Platform)
      returns (row': seq<string>)
      requires RowReady(row, entries, dateFormat, p)
      ensures row' == ExtendedRow(row, entries, dateFormat, p)
    {
      row' := row;
      var isFullDay := true;
      var str := row'[entries[FullDayCol]];
      var startTime := p.parseExact(row'[entries[StartCol]], dateFormat + " HH:mm").value;
      var endTime := p.parseExact(row'[entries[EndCol]], dateFormat + " HH:mm").value;
      if str == "false" {
        isFullDay := false;
      }
      if isFullDay {
        row' := row'[entries[StartCol] := p.formatDateTime(p.datePart(startTime), dateFormat).value];
        row' := row'[entries[EndCol] := p.formatDateTime(p.datePart(endTime), dateFormat).value];
      }
      assert row' == Reformatted(row, entries, dateFormat, p);
      var (timespan, hList) := p.holidayCount(startTime, endTime, isFullDay);
      var e := entries[EndCol];
      row' := row'[..e + 1] + [timespan] + row'[e + 1..];
      row' := row'[..e + 2] + [hList] + row'[e + 2..];
    }
  }
}
