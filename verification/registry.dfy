/**
 * The JSON-file token registry and purchase-intent list of the token API.
 * Registration is first-writer-wins: a token address already present, compared
 * without regard to letter case, is never added again nor updated.
 */
module Registry {
  import opened Wrappers
  import opened Text

  datatype TokenRow = TokenRow(
    chainId: int,
    token: string,
    restrictor: Option<string>,
    name: Option<string>,
    symbol: Option<string>,
    decimals: Option<int>,
    createdAt: Option<int>)

  datatype IntentStatus = Pending | Approved | Rejected

  datatype IntentRow = IntentRow(
    id: string,
    token: string,
    buyer: string,
    amount: string,
    status: IntentStatus,
    createdAt: int)

  /** The two files; `None` stands for a file that does not exist yet. */
  datatype Store = Store(tokens: Option<seq<TokenRow>>, intents: Option<seq<IntentRow>>)

  datatype StoreError = MissingFile

  /** Some entry's token equals `token` after lower-casing both. */
  predicate Registered(rows: seq<TokenRow>, token: string) {
    exists i :: 0 <= i < |rows| && EqualsIgnoreCase(rows[i].token, token)
  }

  /** No two entries name the same token up to letter case. */
  predicate UniqueTokens(rows: seq<TokenRow>) {
    forall i, j :: 0 <= i < j < |rows| ==> !EqualsIgnoreCase(rows[i].token, rows[j].token)
  }

  /** `store.init`: create each missing file as an empty array, never touch an existing one. */
  function Init(s: Store): (r: Store)
    ensures r.tokens.Some? && r.intents.Some?
    ensures s.tokens.Some? ==> r.tokens == s.tokens
    ensures s.intents.Some? ==> r.intents == s.intents
    ensures s.tokens.None? ==> r.tokens == Some([])
    ensures s.intents.None? ==> r.intents == Some([])
  {
    Store(if s.tokens.Some? then s.tokens else Some([]),
          if s.intents.Some? then s.intents else Some([]))
  }

  /** Calling `init` on every start is harmless: a second call changes nothing. */
  lemma InitIdempotent(s: Store)
    ensures Init(Init(s)) == Init(s)
  {
  }

  /** The registry after `addToken`: unchanged when the token is already
      registered, the row appended at the end otherwise. */
  function AddTokenRows(rows: seq<TokenRow>, row: TokenRow): (r: seq<TokenRow>)
    ensures Registered(rows, row.token) ==> r == rows
    ensures !Registered(rows, row.token) ==> |r| == |rows| + 1 && r[..|rows|] == rows && r[|rows|] == row
    ensures Registered(r, row.token)
  {
    if exists i :: 0 <= i < |rows| && Lower(rows[i].token) == Lower(row.token) then rows
    else
      var r := rows + [row];
      assert EqualsIgnoreCase(r[|rows|].token, row.token);
      r
  }

  /** `store.addToken`. */
  function AddToken(s: Store, row: TokenRow): (r: Result<Store, StoreError>)
    ensures r.Err? <==> s.tokens.None?
    ensures r.Ok? ==> r.value.tokens == Some(AddTokenRows(s.tokens.value, row))
    ensures r.Ok? ==> r.value.intents == s.intents
  {
    match s.tokens
    case None => Err(MissingFile)
    case Some(rows) => Ok(s.(tokens := Some(AddTokenRows(rows, row))))
  }

  /** Adding a token keeps the registry free of case-insensitive duplicates. */
  lemma AddTokenKeepsUnique(rows: seq<TokenRow>, row: TokenRow)
    requires UniqueTokens(rows)
    ensures UniqueTokens(AddTokenRows(rows, row))
  {
    var r := AddTokenRows(rows, row);
    if !Registered(rows, row.token) {
      forall i, j | 0 <= i < j < |r|
        ensures !EqualsIgnoreCase(r[i].token, r[j].token)
      {
        if j == |rows| {
          assert r[j] == row;
          assert r[i] == rows[i];
        } else {
          assert r[i] == rows[i] && r[j] == rows[j];
        }
      }
    }
  }

  /** Registering the same row twice gives the registry that registering it once gives. */
  lemma AddTokenIdempotent(rows: seq<TokenRow>, row: TokenRow)
    ensures AddTokenRows(AddTokenRows(rows, row), row) == AddTokenRows(rows, row)
  {
  }

  /** A second registration of the same address, in any letter case and with any
      other fields, leaves the first entry in place. */
  lemma FirstRegistrationWins(rows: seq<TokenRow>, first: TokenRow, second: TokenRow)
    requires EqualsIgnoreCase(first.token, second.token)
    ensures AddTokenRows(AddTokenRows(rows, first), second) == AddTokenRows(rows, first)
  {
    var r := AddTokenRows(rows, first);
    var i :| 0 <= i < |r| && EqualsIgnoreCase(r[i].token, first.token);
    assert EqualsIgnoreCase(r[i].token, second.token);
  }

  /** `store.addIntent`: append one intent; repeated ids are not de-duplicated. */
  function AddIntent(s: Store, row: IntentRow): (r: Result<Store, StoreError>)
    ensures r.Err? <==> s.intents.None?
    ensures r.Ok? ==> r.value.intents.Some? && |r.value.intents.value| == |s.intents.value| + 1
    ensures r.Ok? ==> r.value.intents.value[..|s.intents.value|] == s.intents.value
    ensures r.Ok? ==> r.value.intents.value[|s.intents.value|] == row
    ensures r.Ok? ==> r.value.tokens == s.tokens
  {
    match s.intents
    case None => Err(MissingFile)
    case Some(rows) => Ok(s.(intents := Some(rows + [row])))
  }

  /** Adding the same intent twice stores it twice. */
  lemma AddIntentNoDedup(s: Store, row: IntentRow)
    requires s.intents.Some?
    ensures
      var r := AddIntent(AddIntent(s, row).value, row);
      r.Ok? && |r.value.intents.value| == |s.intents.value| + 2
  {
  }
}
