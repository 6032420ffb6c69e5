/**
 * The editing rules of the issuer panel: the comma-list fields (minters,
 * compliance admins, whitelist), the issuance-schedule rows, and the coercing
 * `decimals` check of the panel's own schema.
 */
module IssuerForm {
  import opened Wrappers
  import opened Text
  import opened Js
  import TokenSchema

  /** `.map(s => s.trim()).filter(Boolean)`, fused into one pass: each piece
      trimmed, the ones left empty dropped, the order kept. */
  function TrimNonEmpty(pieces: seq<string>): (r: seq<string>)
    ensures |r| <= |pieces|
    ensures forall i :: 0 <= i < |r| ==> r[i] != [] && Trimmed(r[i])
    ensures forall i :: 0 <= i < |pieces| && Trim(pieces[i]) != [] ==> Trim(pieces[i]) in r
    ensures forall t :: t in r ==> exists i :: 0 <= i < |pieces| && Trim(pieces[i]) == t
  {
    if pieces == [] then []
    else
      var rest := TrimNonEmpty(pieces[1..]);
      var t := Trim(pieces[0]);
      assert forall i :: 1 <= i < |pieces| ==> pieces[i] == pieces[1..][i - 1];
      if t == [] then rest else [t] + rest
  }

  /** Each piece trimmed, blank ones included. */
  function TrimEach(pieces: seq<string>): (ts: seq<string>)
    ensures |ts| == |pieces|
    ensures forall i :: 0 <= i < |pieces| ==> ts[i] == Trim(pieces[i])
  {
    seq(|pieces|, i requires 0 <= i < |pieces| => Trim(pieces[i]))
  }

  /** `r` is `ts` read through the increasing positions `idx`, which name
      exactly the non-empty entries of `ts`. */
  predicate Selects(ts: seq<string>, idx: seq<int>, r: seq<string>) {
    && |idx| == |r|
    && (forall k :: 0 <= k < |idx| ==> 0 <= idx[k] < |ts| && r[k] == ts[idx[k]])
    && (forall k, l :: 0 <= k < l < |idx| ==> idx[k] < idx[l])
    && (forall i :: 0 <= i < |ts| && ts[i] != [] ==> i in idx)
  }

  /** The kept pieces appear in their input order, one entry per non-blank
      piece: the result is the subsequence of the trimmed pieces left when the
      empty ones are taken out. */
  lemma {:induction false} TrimNonEmptyInOrder(pieces: seq<string>)
    ensures exists idx :: Selects(TrimEach(pieces), idx, TrimNonEmpty(pieces))
  {
    if pieces == [] {
      assert Selects(TrimEach(pieces), [], TrimNonEmpty(pieces));
    } else {
      TrimNonEmptyInOrder(pieces[1..]);
      var ts := TrimEach(pieces[1..]);
      var rest := TrimNonEmpty(pieces[1..]);
      var idx :| Selects(ts, idx, rest);
      assert TrimEach(pieces) == [Trim(pieces[0])] + ts;
      var shifted := Shift(idx);
      ShiftPositions(ts, idx, rest);
      ShiftCovers(ts, idx, rest);
      if Trim(pieces[0]) == [] {
        assert TrimNonEmpty(pieces) == rest;
        SkipHead(ts, shifted, rest);
        assert Selects(TrimEach(pieces), shifted, TrimNonEmpty(pieces));
      } else {
        assert TrimNonEmpty(pieces) == [Trim(pieces[0])] + rest;
        KeepHead(Trim(pieces[0]), ts, shifted, rest);
        assert Selects(TrimEach(pieces), [0] + shifted, TrimNonEmpty(pieces));
      }
    }
  }

  /** Positions moved up by one. */
  function Shift(idx: seq<int>): (r: seq<int>)
    ensures |r| == |idx|
    ensures forall k :: 0 <= k < |idx| ==> r[k] == idx[k] + 1
  {
    seq(|idx|, k requires 0 <= k < |idx| => idx[k] + 1)
  }

  /** Positions into `ts`, moved up by one, are increasing positions into
      `[t] + ts` that pick the same entries. */
  lemma ShiftPositions(ts: seq<string>, idx: seq<int>, rest: seq<string>)
    requires Selects(ts, idx, rest)
    ensures |Shift(idx)| == |rest|
    ensures forall k :: 0 <= k < |idx| ==> 1 <= Shift(idx)[k] <= |ts| && rest[k] == ts[Shift(idx)[k] - 1]
    ensures forall k, l :: 0 <= k < l < |idx| ==> Shift(idx)[k] < Shift(idx)[l]
  {
  }

  /** They miss no non-empty entry of the tail. */
  lemma ShiftCovers(ts: seq<string>, idx: seq<int>, rest: seq<string>)
    requires Selects(ts, idx, rest)
    ensures forall i :: 1 <= i <= |ts| && ts[i - 1] != [] ==> i in Shift(idx)
  {
    var shifted := Shift(idx);
    forall i | 1 <= i <= |ts| && ts[i - 1] != []
      ensures i in shifted
    {
      assert i - 1 in idx;
      var k :| 0 <= k < |idx| && idx[k] == i - 1;
      assert shifted[k] == i;
    }
  }

  lemma SkipHead(ts: seq<string>, shifted: seq<int>, rest: seq<string>)
    requires |shifted| == |rest|
    requires forall k :: 0 <= k < |shifted| ==> 1 <= shifted[k] <= |ts| && rest[k] == ts[shifted[k] - 1]
    requires forall k, l :: 0 <= k < l < |shifted| ==> shifted[k] < shifted[l]
    requires forall i :: 1 <= i <= |ts| && ts[i - 1] != [] ==> i in shifted
    ensures Selects([[]] + ts, shifted, rest)
  {
    var all: seq<string> := [[]] + ts;
    assert forall i :: 1 <= i < |all| ==> all[i] == ts[i - 1];
  }

  lemma KeepHead(t: string, ts: seq<string>, shifted: seq<int>, rest: seq<string>)
    requires t != []
    requires |shifted| == |rest|
    requires forall k :: 0 <= k < |shifted| ==> 1 <= shifted[k] <= |ts| && rest[k] == ts[shifted[k] - 1]
    requires forall k, l :: 0 <= k < l < |shifted| ==> shifted[k] < shifted[l]
    requires forall i :: 1 <= i <= |ts| && ts[i - 1] != [] ==> i in shifted
    ensures Selects([t] + ts, [0] + shifted, [t] + rest)
  {
    var all := [t] + ts;
    var idx := [0] + shifted;
    var r := [t] + rest;
    assert forall i :: 1 <= i < |all| ==> all[i] == ts[i - 1];
    assert forall k :: 1 <= k < |idx| ==> idx[k] == shifted[k - 1] && r[k] == rest[k - 1];
    assert idx[0] == 0;
  }

  /** Trimming cannot bring a separator into a piece. */
  lemma {:induction false} TrimNonEmptySepFree(pieces: seq<string>, sep: char)
    requires forall i :: 0 <= i < |pieces| ==> sep !in pieces[i]
    ensures forall i :: 0 <= i < |TrimNonEmpty(pieces)| ==> sep !in TrimNonEmpty(pieces)[i]
  {
    if pieces != [] {
      assert forall i :: 0 <= i < |pieces[1..]| ==> pieces[1..][i] == pieces[i + 1];
      TrimNonEmptySepFree(pieces[1..], sep);
      SubstringSepFree(pieces[0], Trim(pieces[0]), sep);
    }
  }

  /** Pieces that are already non-empty and trimmed pass through unchanged. */
  lemma {:induction false} TrimNonEmptyClean(pieces: seq<string>)
    requires forall i :: 0 <= i < |pieces| ==> pieces[i] != [] && Trimmed(pieces[i])
    ensures TrimNonEmpty(pieces) == pieces
  {
    if pieces != [] {
      assert forall i :: 0 <= i < |pieces[1..]| ==> pieces[1..][i] == pieces[i + 1];
      TrimNonEmptyClean(pieces[1..]);
    }
  }

  /** An entry the comma-list fields can hold. */
  predicate CleanItem(s: string) {
    s != [] && ',' !in s && Trimmed(s)
  }

  /** `applyCsvOnBlur`: split on commas, trim each piece, drop the empty ones. */
  function ApplyCsv(raw: string): (r: seq<string>)
    ensures forall i :: 0 <= i < |r| ==> CleanItem(r[i])
    ensures AllSpace(raw) ==> r == []
    ensures forall i :: 0 <= i < |Split(raw, ',')| && Trim(Split(raw, ',')[i]) != [] ==>
      Trim(Split(raw, ',')[i]) in r
    ensures forall t :: t in r ==> exists i :: 0 <= i < |Split(raw, ',')| && Trim(Split(raw, ',')[i]) == t
  {
    var pieces := Split(raw, ',');
    var r := TrimNonEmpty(pieces);
    TrimNonEmptySepFree(pieces, ',');
    SplitBlank(raw, ',');
    TrimEmpty(raw);
    forall t | t in r
      ensures exists i :: 0 <= i < |Split(raw, ',')| && Trim(Split(raw, ',')[i]) == t
    {
      var i :| 0 <= i < |pieces| && Trim(pieces[i]) == t;
      assert Trim(Split(raw, ',')[i]) == t;
    }
    assert AllSpace(raw) ==> r == [] by {
      if AllSpace(raw) {
        assert pieces[1..] == [];
      }
    }
    r
  }

  /** The entries keep the order of the comma-separated pieces they come from. */
  lemma ApplyCsvInOrder(raw: string)
    ensures exists idx :: Selects(TrimEach(Split(raw, ',')), idx, ApplyCsv(raw))
  {
    TrimNonEmptyInOrder(Split(raw, ','));
    assert ApplyCsv(raw) == TrimNonEmpty(Split(raw, ','));
  }

  lemma SubstringSepFree(s: string, sub: string, sep: char)
    requires InfixOf(sub, s)
    ensures sep !in s ==> sep !in sub
  {
    var i :| OccursAt(s, sub, i);
    assert forall k :: 0 <= k < |sub| ==> sub[k] == s[i + k];
  }

  /** Blank input has no separator, so it splits into itself alone. */
  lemma SplitBlank(s: string, sep: char)
    ensures AllSpace(s) && !IsSpace(sep) ==> Split(s, sep) == [s]
  {
    if AllSpace(s) && !IsSpace(sep) {
      assert forall k :: 0 <= k < |s| ==> s[k] != sep;
      var r := Split(s, sep);
      assert |r| == 1;
    }
  }

  /** Joining clean entries with commas and reading them back gives the same list. */
  lemma CsvRoundTrip(items: seq<string>)
    requires forall i :: 0 <= i < |items| ==> CleanItem(items[i])
    ensures ApplyCsv(Join(items, ',')) == items
  {
    var s := Join(items, ',');
    if items == [] {
      assert s == [];
      assert AllSpace(s);
    } else {
      SplitJoin(items, ',');
      assert Split(s, ',') == items;
      TrimNonEmptyClean(items);
    }
  }

  /** Reading a list back a second time changes nothing. */
  lemma CsvIdempotent(raw: string)
    ensures ApplyCsv(Join(ApplyCsv(raw), ',')) == ApplyCsv(raw)
  {
    CsvRoundTrip(ApplyCsv(raw));
  }

  /** Whitespace around entries and empty entries disappear. */
  lemma CsvDropsBlanks()
    ensures ApplyCsv(" a ,, b") == ["a", "b"]
  {
    SplitExample();
    TrimNonEmptyExample();
  }

  lemma TrimNonEmptyExample()
    ensures TrimNonEmpty([" a ", "", " b"]) == ["a", "b"]
  {
    var xs := [" a ", "", " b"];
    assert xs[1..] == ["", " b"] && xs[1..][1..] == [" b"] && xs[1..][1..][1..] == [];
    TrimPadded('a');
    TrimPadded('b');
    assert xs[0] == [' ', 'a', ' '] && xs[2] == [' ', 'b'];
    assert Trim("") == "";
  }

  lemma SplitExample()
    ensures Split(" a ,, b", ',') == [" a ", "", " b"]
  {
    var xs := [" a ", "", " b"];
    assert Join(xs, ',') == " a ,, b" by {
      assert xs[1..] == ["", " b"];
      assert xs[1..][1..] == [" b"];
    }
    SplitJoin(xs, ',');
  }

  lemma TrimPadded(c: char)
    requires !IsSpace(c)
    ensures Trim([' ', c, ' ']) == [c]
    ensures Trim([' ', c]) == [c]
  {
    assert [' ', c, ' '][1..] == [c, ' '] && [c, ' '][..1] == [c];
    assert [' ', c][1..] == [c];
  }

  /** One row of the issuance schedule. */
  datatype SchedItem = SchedItem(t: string, mint: string, to: string)

  datatype SchedKey = KeyT | KeyMint | KeyTo

  function GetField(it: SchedItem, key: SchedKey): string {
    match key
    case KeyT => it.t
    case KeyMint => it.mint
    case KeyTo => it.to
  }

  /** `{ ...it, [key]: val }`. */
  function SetField(it: SchedItem, key: SchedKey, val: string): (r: SchedItem)
    ensures GetField(r, key) == val
    ensures forall k :: k != key ==> GetField(r, k) == GetField(it, k)
  {
    match key
    case KeyT => it.(t := val)
    case KeyMint => it.(mint := val)
    case KeyTo => it.(to := val)
  }

  /** `updateSched(i, key, val)`: map over the rows, changing field `key` of the
      row whose index equals `i`. */
  function UpdateSched(rows: seq<SchedItem>, i: int, key: SchedKey, val: string): (r: seq<SchedItem>)
    ensures |r| == |rows|
    ensures forall j :: 0 <= j < |rows| && j != i ==> r[j] == rows[j]
    ensures 0 <= i < |rows| ==> GetField(r[i], key) == val
    ensures 0 <= i < |rows| ==> forall k :: k != key ==> GetField(r[i], k) == GetField(rows[i], k)
    ensures !(0 <= i < |rows|) ==> r == rows
  {
    if rows == [] then []
    else
      var rest := UpdateSched(rows[1..], i - 1, key, val);
      var r := [if i == 0 then SetField(rows[0], key, val) else rows[0]] + rest;
      assert forall j :: 1 <= j < |rows| ==> r[j] == rest[j - 1] && rows[j] == rows[1..][j - 1];
      r
  }

  const NewRow := SchedItem("immediate", "", "")

  /** `addRow`: append a fresh immediate-mint row. */
  function AddRow(rows: seq<SchedItem>): (r: seq<SchedItem>)
    ensures |r| == |rows| + 1
    ensures r[..|rows|] == rows
    ensures r[|rows|] == NewRow
  {
    rows + [NewRow]
  }

  /** `delRow(i)`: keep every row whose index differs from `i`. */
  function DelRow(rows: seq<SchedItem>, i: int): (r: seq<SchedItem>)
    ensures 0 <= i < |rows| ==> r == rows[..i] + rows[i + 1..]
    ensures !(0 <= i < |rows|) ==> r == rows
  {
    if rows == [] then []
    else
      var rest := DelRow(rows[1..], i - 1);
      if i == 0 then
        assert rest == rows[1..];
        rest
      else
        assert 0 < i < |rows| ==> rows[1..][..i - 1] + rows[1..][i..] == rows[1..i] + rows[i + 1..];
        [rows[0]] + rest
  }

  /** Deleting the row just added restores the schedule. */
  lemma DelUndoesAdd(rows: seq<SchedItem>)
    ensures DelRow(AddRow(rows), |rows|) == rows
  {
    assert AddRow(rows)[..|rows|] == rows;
  }

  /** `z.coerce.number().int().min(0).max(36)`: the value is first put through
      `Number(...)`, then checked like the API's field. */
  function UiDecimals(v: JsValue, parse: string -> JsNumber): (r: Result<int, TokenSchema.SchemaError>)
    ensures r.Ok? <==> TokenSchema.DecimalsOk(ToNumber(v, parse))
    ensures r.Ok? ==> 0 <= r.value <= 36 && ToNumber(v, parse) == Finite(r.value as real)
  {
    var n := ToNumber(v, parse);
    if TokenSchema.DecimalsOk(n) then Ok(n.r.Floor) else Err(TokenSchema.InvalidConfig)
  }

  /** The panel and the API agree on the coerced number: the panel accepts a
      value exactly when the API's schema accepts `Number(value)` in an
      otherwise valid config, and what the panel accepts the API accepts too. */
  lemma UiAgreesWithApi(raw: TokenSchema.RawConfig, v: JsValue, parse: string -> JsNumber)
    requires TokenSchema.Parse(raw).Ok?
    ensures UiDecimals(v, parse).Ok? <==> TokenSchema.Parse(raw.(decimals := Some(ToNumber(v, parse)))).Ok?
    ensures UiDecimals(v, parse).Ok? ==>
      TokenSchema.Parse(raw.(decimals := Some(Finite(UiDecimals(v, parse).value as real)))).Ok?
  {
    TokenSchema.DecimalsDecide(raw, ToNumber(v, parse));
  }

  /** Coercion lets `null` through as 0 and `true` as 1; a missing value is NaN
      and fails. A YAML list reaches the check as an array: `[]` passes as 0 and
      `[18]` as 18, while a list of two numbers fails. */
  lemma UiDecimalsCoercion(parse: string -> JsNumber)
    ensures UiDecimals(Null, parse) == Ok(0)
    ensures UiDecimals(Bool(true), parse) == Ok(1)
    ensures UiDecimals(Undefined, parse).Err?
    ensures UiDecimals(Arr([]), parse) == Ok(0)
    ensures UiDecimals(Arr([Num(Finite(18.0))]), parse) == Ok(18)
    ensures UiDecimals(Arr([Num(Finite(1.0)), Num(Finite(8.0))]), parse).Err?
  {
  }
}
