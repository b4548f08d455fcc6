/**
  Key rotation (internal/keyrotate): every sealed cell of the database is opened with the
  old key, sealed with the new one, written back with `UPDATE ... WHERE key columns`, and
  read back, all inside one transaction.

  The cipher is any pair of functions that obeys `Encryptor.Lawful`. Which statements fail is an input, and so is the
  fate of COMMIT. Nonces and the row a single-row SELECT picks among several matches are chosen nondeterministically,
  so every contract below holds for all of those choices.
*/
module KeyRotate {
  import opened Prelude

  type Blob = seq<Byte>

  // 12 byte nonce + 16 byte GCM tag.
  const MIN_SEALED_BLOB_LEN := 12 + 16

  datatype Encryptor = Encryptor(seal: (string, nat) -> Blob, open: Blob -> Option<string>) {
    ghost predicate Lawful() {
      forall p: string, nonce: nat ::
        |seal(p, nonce)| >= MIN_SEALED_BLOB_LEN && open(seal(p, nonce)) == Some(p)
    }
  }

  datatype Value = Null | Text(text: string) | Bytes(blob: Blob)

  datatype TableName =
    | PeerSecrets | CaMaterial | OpenvpnClients | Ikev2Clients | NotifyChannels | Servers | XrayInstances
    | XrayClients | TlsState | AcmeCache | TlsSelfSigned | LdapSettings | OidcSettings | OtherTable(table: string)

  datatype Column =
    | Provider | PublicKey | Cn | Kind | Id | Name | CacheKey
    | EncryptedPrivateKey | EncKeyPem | Config | EncParams | EncRelay | EncCred | ManualKeyEnc | CacheValue
    | CaKeyEnc | LeafKeyEnc | EncBindPassword | EncClientSecret | OtherColumn(column: string)

  type Row = map<Column, Value>
  type Rows = seq<Row>
  type Tables = map<TableName, Rows>

  datatype SealedColumn = SealedColumn(table: TableName, column: Column, keyCols: seq<Column>)

  const SEALED_COLUMNS: seq<SealedColumn> := [
    SealedColumn(PeerSecrets, EncryptedPrivateKey, [Provider, PublicKey]),
    SealedColumn(CaMaterial, EncKeyPem, [Provider]),
    SealedColumn(OpenvpnClients, EncKeyPem, [Cn]),
    SealedColumn(Ikev2Clients, EncKeyPem, [Cn]),
    SealedColumn(NotifyChannels, Config, [Kind]),
    SealedColumn(Servers, EncKeyPem, [Id]),
    SealedColumn(XrayInstances, EncParams, [Provider]),
    SealedColumn(XrayInstances, EncRelay, [Provider]),
    SealedColumn(XrayClients, EncCred, [Provider, Name]),
    SealedColumn(TlsState, ManualKeyEnc, [Id]),
    SealedColumn(AcmeCache, CacheValue, [CacheKey]),
    SealedColumn(TlsSelfSigned, CaKeyEnc, [Id]),
    SealedColumn(TlsSelfSigned, LeafKeyEnc, [Id]),
    SealedColumn(LdapSettings, EncBindPassword, [Id]),
    SealedColumn(OidcSettings, EncClientSecret, [Id])]

  datatype ColumnReport =
    ColumnReport(table: TableName, column: Column, rewritten: nat, skippedEmpty: nat, skippedNull: nat)

  // Fault: the database or the random source failed. Data: what is stored cannot be rotated.
  // CommitUnknown: COMMIT was sent and its acknowledgement did not arrive.
  datatype Failure = Fault | Data | CommitUnknown

  // What can fail at a fault of the database or of the random source; the scan of row |rows| is the end of the result.
  datatype Statement =
    | Begin
    | Select(sc: SealedColumn)
    | Scan(sc: SealedColumn, row: nat)
    | Seal(sc: SealedColumn, entry: nat)
    | Update(sc: SealedColumn, entry: nat)
    | Reread(sc: SealedColumn, entry: nat)

  type Faults = Statement -> bool

  // COMMIT is acknowledged, or the connection is lost before or after it takes effect.
  datatype CommitFate = Acknowledged | LostBefore | LostAfter

  datatype Pending = Pending(key: seq<Value>, plaintext: string)

  // ---------------------------------------------------------------- rows and keys

  function Cell(row: Row, column: Column): Value {
    if column in row then row[column] else Null
  }

  function KeyOf(row: Row, keyCols: seq<Column>): seq<Value> {
    seq(|keyCols|, i requires 0 <= i < |keyCols| => Cell(row, keyCols[i]))
  }

  // SQL `k1 = $1 AND k2 = $2 ...`: a NULL is equal to nothing, not even to NULL.
  predicate Addresses(key: seq<Value>, row: Row, keyCols: seq<Column>) {
    Null !in key && key == KeyOf(row, keyCols)
  }

  predicate Real(v: Value) {
    v.Bytes? && |v.blob| >= MIN_SEALED_BLOB_LEN
  }

  function Plain(enc: Encryptor, v: Value): string {
    if v.Bytes? && enc.open(v.blob).Some? then enc.open(v.blob).value else ""
  }

  // ---------------------------------------------------------------- what rotation demands and does

  /** Every real blob of the column opens under `enc`, and no cell has an unexpected type. */
  ghost predicate Readable(rows: Rows, sc: SealedColumn, enc: Encryptor) {
    forall i | 0 <= i < |rows| ::
      var v := Cell(rows[i], sc.column);
      !v.Text? && (Real(v) ==> enc.open(v.blob).Some?)
  }

  /** Rows the UPDATE cannot tell apart hold the same secret, and each can be addressed at all. */
  ghost predicate Separable(rows: Rows, sc: SealedColumn, enc: Encryptor) {
    && (forall i | 0 <= i < |rows| && Real(Cell(rows[i], sc.column)) :: Null !in KeyOf(rows[i], sc.keyCols))
    && (forall i, j | 0 <= i < |rows| && 0 <= j < |rows|
          && Real(Cell(rows[i], sc.column)) && Real(Cell(rows[j], sc.column))
          && KeyOf(rows[i], sc.keyCols) == KeyOf(rows[j], sc.keyCols) ::
          Plain(enc, Cell(rows[i], sc.column)) == Plain(enc, Cell(rows[j], sc.column)))
  }

  ghost predicate Rotatable(rows: Rows, sc: SealedColumn, enc: Encryptor) {
    Readable(rows, sc, enc) && Separable(rows, sc, enc)
  }

  /** `v` is ciphertext under `enc` for the plaintext `p`. */
  ghost predicate SealsTo(enc: Encryptor, v: Value, p: string) {
    Real(v) && enc.open(v.blob) == Some(p)
  }

  /** Row `j` holds real ciphertext and its UPDATE reaches row `i`. */
  ghost predicate Hits(rows: Rows, sc: SealedColumn, j: nat, i: nat)
    requires i < |rows| && j < |rows|
  {
    Real(Cell(rows[j], sc.column)) && Addresses(KeyOf(rows[j], sc.keyCols), rows[i], sc.keyCols)
  }

  ghost predicate Collides(rows: Rows, sc: SealedColumn, i: nat)
    requires i < |rows|
  {
    exists j | 0 <= j < |rows| :: Hits(rows, sc, j, i)
  }

  /** What one cell of a sealed column becomes: real ciphertext keeps its plaintext, and a NULL or
      placeholder survives exactly when no real row shares its key, else it takes that row's secret. */
  ghost predicate CellRotated(rows: Rows, sc: SealedColumn, i: nat, v: Value, oldEnc: Encryptor, newEnc: Encryptor)
    requires i < |rows|
  {
    var v0 := Cell(rows[i], sc.column);
    if Real(v0) then oldEnc.open(v0.blob).Some? && SealsTo(newEnc, v, oldEnc.open(v0.blob).value)
    else if Collides(rows, sc, i) then
      exists j | 0 <= j < |rows| :: Hits(rows, sc, j, i) && SealsTo(newEnc, v, Plain(oldEnc, Cell(rows[j], sc.column)))
    else v == v0
  }

  ghost predicate ColumnRotated(rows: Rows, rows': Rows, sc: SealedColumn, oldEnc: Encryptor, newEnc: Encryptor) {
    && |rows'| == |rows|
    && forall i | 0 <= i < |rows| :: CellRotated(rows, sc, i, Cell(rows'[i], sc.column), oldEnc, newEnc)
  }

  ghost predicate Sealed(cols: seq<SealedColumn>, table: TableName, column: Column) {
    exists sc :: sc in cols && sc.table == table && sc.column == column
  }

  /** The whole database after rotating `cols`: sealed cells are rotated, all others are untouched. */
  ghost predicate Rotated(t0: Tables, t1: Tables, cols: seq<SealedColumn>, oldEnc: Encryptor, newEnc: Encryptor) {
    && t1.Keys == t0.Keys
    && (forall t | t in t0 :: |t1[t]| == |t0[t]|)
    && (forall sc | sc in cols :: sc.table in t0 && ColumnRotated(t0[sc.table], t1[sc.table], sc, oldEnc, newEnc))
    && (forall t, i, c | t in t0 && 0 <= i < |t0[t]| && !Sealed(cols, t, c) :: Cell(t1[t][i], c) == Cell(t0[t][i], c))
  }

  ghost predicate AllRotatable(t0: Tables, cols: seq<SealedColumn>, enc: Encryptor) {
    forall sc | sc in cols :: sc.table in t0 && Rotatable(t0[sc.table], sc, enc)
  }

  ghost predicate ScansFine(faults: Faults, sc: SealedColumn, rows: nat) {
    !faults(Select(sc)) && forall i: nat | i <= rows :: !faults(Scan(sc, i))
  }

  ghost predicate WritesFine(faults: Faults, sc: SealedColumn, entries: nat) {
    forall q: nat | q < entries :: !faults(Seal(sc, q)) && !faults(Update(sc, q))
  }

  ghost predicate RereadsFine(faults: Faults, sc: SealedColumn, entries: nat) {
    forall q: nat | q < entries :: !faults(Reread(sc, q))
  }

  function CountReal(rows: Rows, column: Column): nat {
    if rows == [] then 0 else
      CountReal(rows[..|rows| - 1], column) + (if Real(Cell(rows[|rows| - 1], column)) then 1 else 0)
  }

  /** No statement that rotating the column takes fails: one scan per row, three statements per real blob. */
  ghost predicate ColumnFine(faults: Faults, sc: SealedColumn, rows: Rows) {
    var entries := CountReal(rows, sc.column);
    ScansFine(faults, sc, |rows|) && WritesFine(faults, sc, entries) && RereadsFine(faults, sc, entries)
  }

  ghost predicate AllFine(faults: Faults, tables: Tables, cols: seq<SealedColumn>) {
    forall sc | sc in cols && sc.table in tables :: ColumnFine(faults, sc, tables[sc.table])
  }

  /** No column is listed twice, and no key column of a table is itself sealed. */
  ghost predicate WellFormed(cols: seq<SealedColumn>) {
    && (forall i, j | 0 <= i < j < |cols| :: cols[i].table != cols[j].table || cols[i].column != cols[j].column)
    && (forall a, b | a in cols && b in cols && a.table == b.table :: a.column !in b.keyCols)
  }

  function CountNull(rows: Rows, column: Column): nat {
    if rows == [] then 0 else
      CountNull(rows[..|rows| - 1], column) + (if Cell(rows[|rows| - 1], column).Null? then 1 else 0)
  }

  function CountShort(rows: Rows, column: Column): nat {
    if rows == [] then 0 else
      var v := Cell(rows[|rows| - 1], column);
      CountShort(rows[..|rows| - 1], column) + (if v.Bytes? && !Real(v) then 1 else 0)
  }

  function HoldsNull(column: Column): Row -> bool {
    (row: Row) => Cell(row, column) == Null
  }

  // Bytes too short to be ciphertext: a nonce of 12 and a tag of 16.
  function HoldsShort(column: Column): Row -> bool {
    (row: Row) => Cell(row, column).Bytes? && |Cell(row, column).blob| < 28
  }

  function HoldsBlob(column: Column): Row -> bool {
    (row: Row) => Cell(row, column).Bytes? && |Cell(row, column).blob| >= 28
  }

  /** Each counter is the number of rows whose cell is of its kind. */
  lemma {:induction false} CountsExactly(rows: Rows, column: Column)
    ensures CountNull(rows, column) == |Where(rows, HoldsNull(column))|
    ensures CountShort(rows, column) == |Where(rows, HoldsShort(column))|
    ensures CountReal(rows, column) == |Where(rows, HoldsBlob(column))|
  {
    if rows != [] {
      var init, row := rows[..|rows| - 1], rows[|rows| - 1];
      assert rows == init + [row];
      CountsExactly(init, column);
      WhereOneMore(init, row, HoldsNull(column));
      WhereOneMore(init, row, HoldsShort(column));
      WhereOneMore(init, row, HoldsBlob(column));
    }
  }

  /** The three counters of a report partition the rows of the table. */
  ghost predicate ReportMatches(cr: ColumnReport, rows: Rows, sc: SealedColumn) {
    && cr.table == sc.table && cr.column == sc.column
    && cr.skippedNull == CountNull(rows, sc.column)
    && cr.skippedEmpty == CountShort(rows, sc.column)
    && cr.rewritten == CountReal(rows, sc.column)
    && cr.rewritten + cr.skippedEmpty + cr.skippedNull == |rows|
  }

  // ---------------------------------------------------------------- pass 1: collect

  function PendingOf(rows: Rows, sc: SealedColumn, enc: Encryptor): seq<Pending> {
    if rows == [] then [] else
      var rest := PendingOf(rows[..|rows| - 1], sc, enc);
      var row := rows[|rows| - 1];
      var v := Cell(row, sc.column);
      if Real(v) then rest + [Pending(KeyOf(row, sc.keyCols), Plain(enc, v))] else rest
  }

  /** The pending list holds exactly the keys and plaintexts of the real rows. */
  lemma {:induction false} PendingMembers(rows: Rows, sc: SealedColumn, enc: Encryptor, p: Pending)
    ensures p in PendingOf(rows, sc, enc) <==>
            exists i | 0 <= i < |rows| ::
              Real(Cell(rows[i], sc.column))
              && p == Pending(KeyOf(rows[i], sc.keyCols), Plain(enc, Cell(rows[i], sc.column)))
  {
    if rows != [] {
      var init := rows[..|rows| - 1];
      PendingMembers(init, sc, enc, p);
      assert forall i | 0 <= i < |init| :: init[i] == rows[i];
    }
  }

  lemma {:induction false} PendingCounts(rows: Rows, sc: SealedColumn, enc: Encryptor)
    ensures |PendingOf(rows, sc, enc)| == CountReal(rows, sc.column)
  {
    if rows != [] { PendingCounts(rows[..|rows| - 1], sc, enc); }
  }

  method CollectPending(rows: Rows, sc: SealedColumn, enc: Encryptor, faults: Faults)
    returns (r: Result<seq<Pending>, Failure>, skippedNull: nat, skippedEmpty: nat)
    ensures r.Ok? <==> Readable(rows, sc, enc) && ScansFine(faults, sc, |rows|)
    ensures r.Ok? ==> r.value == PendingOf(rows, sc, enc)
    ensures r.Ok? ==> skippedNull == CountNull(rows, sc.column) && skippedEmpty == CountShort(rows, sc.column)
    ensures r.Ok? ==> |r.value| + skippedEmpty + skippedNull == |rows|
    ensures r == Err(Data) ==> !Readable(rows, sc, enc)
    ensures r == Err(Fault) ==> !ScansFine(faults, sc, |rows|)
    ensures r != Err(CommitUnknown)
  {
    var pending: seq<Pending> := [];
    skippedNull, skippedEmpty := 0, 0;
    if faults(Select(sc)) { return Err(Fault), 0, 0; }
    for n := 0 to |rows|
      invariant forall i: nat | i < n :: !faults(Scan(sc, i))
      invariant Readable(rows[..n], sc, enc)
      invariant pending == PendingOf(rows[..n], sc, enc)
      invariant skippedNull == CountNull(rows[..n], sc.column) && skippedEmpty == CountShort(rows[..n], sc.column)
      invariant |pending| + skippedEmpty + skippedNull == n
    {
      if faults(Scan(sc, n)) { return Err(Fault), skippedNull, skippedEmpty; }
      var v := Cell(rows[n], sc.column);
      assert rows[..n + 1][..n] == rows[..n];
      match v {
        case Null =>
          skippedNull := skippedNull + 1;
        case Text(_) =>
          return Err(Data), skippedNull, skippedEmpty;
        case Bytes(blob) =>
          if |blob| < MIN_SEALED_BLOB_LEN {
            skippedEmpty := skippedEmpty + 1;
          } else {
            var plain := enc.open(blob);
            if plain.None? { return Err(Data), skippedNull, skippedEmpty; }
            pending := pending + [Pending(KeyOf(rows[n], sc.keyCols), plain.value)];
          }
      }
    }
    assert rows[..|rows|] == rows;
    if faults(Scan(sc, |rows|)) { return Err(Fault), skippedNull, skippedEmpty; }
    r := Ok(pending);
  }

  // ---------------------------------------------------------------- pass 2: update

  /** The last pending entry whose UPDATE hits `row`, or -1. */
  function LastHit(pending: seq<Pending>, row: Row, keyCols: seq<Column>): (h: int)
    ensures -1 <= h < |pending|
    ensures h >= 0 ==> Addresses(pending[h].key, row, keyCols)
    ensures forall q | h < q < |pending| :: !Addresses(pending[q].key, row, keyCols)
  {
    if pending == [] then -1
    else if Addresses(pending[|pending| - 1].key, row, keyCols) then |pending| - 1
    else LastHit(pending[..|pending| - 1], row, keyCols)
  }

  function SetWhere(rows: Rows, sc: SealedColumn, key: seq<Value>, v: Value): Rows {
    seq(|rows|, i requires 0 <= i < |rows| =>
      if Addresses(key, rows[i], sc.keyCols) then rows[i][sc.column := v] else rows[i])
  }

  /** The table after one UPDATE per pending entry, in order: each row carries its last hit. */
  function Rewrite(rows: Rows, sc: SealedColumn, pending: seq<Pending>, blobs: seq<Blob>): Rows
    requires |blobs| == |pending|
  {
    seq(|rows|, i requires 0 <= i < |rows| =>
      var h := LastHit(pending, rows[i], sc.keyCols);
      if h < 0 then rows[i] else rows[i][sc.column := Bytes(blobs[h])])
  }

  lemma WriteKeepsKey(row: Row, sc: SealedColumn, v: Value)
    requires sc.column !in sc.keyCols
    ensures KeyOf(row[sc.column := v], sc.keyCols) == KeyOf(row, sc.keyCols)
  {
    var k, k' := KeyOf(row, sc.keyCols), KeyOf(row[sc.column := v], sc.keyCols);
    forall i | 0 <= i < |k| ensures k[i] == k'[i] {
      assert sc.keyCols[i] in sc.keyCols;
    }
  }

  lemma RewriteStep(rows: Rows, sc: SealedColumn, pending: seq<Pending>, blobs: seq<Blob>, p: Pending, b: Blob)
    requires |blobs| == |pending| && sc.column !in sc.keyCols
    ensures Rewrite(rows, sc, pending + [p], blobs + [b]) ==
              SetWhere(Rewrite(rows, sc, pending, blobs), sc, p.key, Bytes(b))
  {
    var before := Rewrite(rows, sc, pending, blobs);
    var one := Rewrite(rows, sc, pending + [p], blobs + [b]);
    var two := SetWhere(before, sc, p.key, Bytes(b));
    assert (pending + [p])[..|pending|] == pending;
    forall i | 0 <= i < |rows| ensures one[i] == two[i] {
      var h := LastHit(pending, rows[i], sc.keyCols);
      if h >= 0 {
        WriteKeepsKey(rows[i], sc, Bytes(blobs[h]));
        assert (blobs + [b])[h] == blobs[h];
      }
    }
  }

  lemma SealLaw(enc: Encryptor, p: string, nonce: nat)
    requires enc.Lawful()
    ensures SealsTo(enc, Bytes(enc.seal(p, nonce)), p)
  {
  }

  method UpdatePass(rows: Rows, sc: SealedColumn, pending: seq<Pending>, enc: Encryptor, faults: Faults)
    returns (r: Result<Rows, Failure>, ghost blobs: seq<Blob>)
    requires sc.column !in sc.keyCols && enc.Lawful()
    ensures r.Ok? <==> WritesFine(faults, sc, |pending|)
    ensures r.Ok? ==> |blobs| == |pending| && r.value == Rewrite(rows, sc, pending, blobs)
    ensures r.Ok? ==> forall q | 0 <= q < |blobs| :: SealsTo(enc, Bytes(blobs[q]), pending[q].plaintext)
    ensures r.Err? ==> r.error == Fault
  {
    var cur := rows;
    blobs := [];
    assert cur == Rewrite(rows, sc, pending[..0], blobs);
    for n := 0 to |pending|
      invariant |blobs| == n && cur == Rewrite(rows, sc, pending[..n], blobs)
      invariant forall q | 0 <= q < n :: SealsTo(enc, Bytes(blobs[q]), pending[q].plaintext)
      invariant WritesFine(faults, sc, n)
    {
      if faults(Seal(sc, n)) || faults(Update(sc, n)) { return Err(Fault), blobs; }
      var nonce: nat := *;
      var newBlob := enc.seal(pending[n].plaintext, nonce);
      SealLaw(enc, pending[n].plaintext, nonce);
      RewriteStep(rows, sc, pending[..n], blobs, pending[n], newBlob);
      assert pending[..n + 1] == pending[..n] + [pending[n]];
      cur := SetWhere(cur, sc, pending[n].key, Bytes(newBlob));
      blobs := blobs + [newBlob];
    }
    assert pending[..|pending|] == pending;
    r := Ok(cur);
  }

  // ---------------------------------------------------------------- pass 3: verify

  ghost predicate Agreeing(pending: seq<Pending>) {
    && (forall a | a in pending :: Null !in a.key)
    && (forall a, b | a in pending && b in pending && a.key == b.key :: a.plaintext == b.plaintext)
  }

  lemma RewriteKeepsKeys(rows: Rows, sc: SealedColumn, pending: seq<Pending>, blobs: seq<Blob>, i: nat)
    requires |blobs| == |pending| && sc.column !in sc.keyCols && i < |rows|
    ensures KeyOf(Rewrite(rows, sc, pending, blobs)[i], sc.keyCols) == KeyOf(rows[i], sc.keyCols)
  {
    var h := LastHit(pending, rows[i], sc.keyCols);
    if h >= 0 { WriteKeepsKey(rows[i], sc, Bytes(blobs[h])); }
  }

  /** The single-row SELECT of the verify pass: any row with the key may come back. */
  method SelectOne(rows: Rows, sc: SealedColumn, key: seq<Value>) returns (r: Option<nat>)
    ensures r.Some? ==> r.value < |rows| && Addresses(key, rows[r.value], sc.keyCols)
    ensures r.None? ==> forall i | 0 <= i < |rows| :: !Addresses(key, rows[i], sc.keyCols)
  {
    r := None;
    for i := 0 to |rows|
      invariant r.Some? ==> r.value < |rows| && Addresses(key, rows[r.value], sc.keyCols)
      invariant r.None? ==> forall k | 0 <= k < i :: !Addresses(key, rows[k], sc.keyCols)
    {
      if Addresses(key, rows[i], sc.keyCols) {
        if r.None? { r := Some(i); } else if * { r := Some(i); }
      }
    }
  }

  /** The last pending entry with the given key. */
  function LastWith(pending: seq<Pending>, key: seq<Value>): (h: nat)
    requires exists q | 0 <= q < |pending| :: pending[q].key == key
    ensures h < |pending| && pending[h].key == key
    ensures forall q | h < q < |pending| :: pending[q].key != key
  {
    if pending[|pending| - 1].key == key then |pending| - 1 else LastWith(pending[..|pending| - 1], key)
  }

  /** Whatever row the verify SELECT picks for a key, it reads the blob of that key's last update. */
  lemma ReadBack(rows: Rows, sc: SealedColumn, pending: seq<Pending>, blobs: seq<Blob>, n: nat, i: nat)
    requires sc.column !in sc.keyCols && |blobs| == |pending| && n < |pending| && i < |rows|
    requires Addresses(pending[n].key, Rewrite(rows, sc, pending, blobs)[i], sc.keyCols)
    ensures Cell(Rewrite(rows, sc, pending, blobs)[i], sc.column) == Bytes(blobs[LastWith(pending, pending[n].key)])
  {
    RewriteKeepsKeys(rows, sc, pending, blobs, i);
    var h := LastHit(pending, rows[i], sc.keyCols);
    assert pending[h].key == pending[n].key;
    assert forall q | h < q < |pending| :: pending[q].key != pending[n].key;
  }

  ghost predicate Verified(pending: seq<Pending>, n: nat)
    requires n < |pending|
  {
    var p := pending[n];
    Null !in p.key && pending[LastWith(pending, p.key)].plaintext == p.plaintext
  }

  lemma AgreeingIsVerified(pending: seq<Pending>)
    ensures Agreeing(pending) <==> forall n | 0 <= n < |pending| :: Verified(pending, n)
  {
    if forall n | 0 <= n < |pending| :: Verified(pending, n) {
      forall a, b | a in pending && b in pending && a.key == b.key
        ensures Null !in a.key && a.plaintext == b.plaintext {
        var i :| 0 <= i < |pending| && pending[i] == a;
        var j :| 0 <= j < |pending| && pending[j] == b;
        assert Verified(pending, i) && Verified(pending, j);
      }
    }
    if Agreeing(pending) {
      forall n | 0 <= n < |pending| ensures Verified(pending, n) {
        assert pending[n] in pending && pending[LastWith(pending, pending[n].key)] in pending;
      }
    }
  }

  ghost predicate HasKey(rows: Rows, sc: SealedColumn, key: seq<Value>) {
    exists i | 0 <= i < |rows| :: KeyOf(rows[i], sc.keyCols) == key
  }

  /** A key that a row has and no SELECT finds contains a NULL. */
  lemma Unaddressed(rows: Rows, sc: SealedColumn, pending: seq<Pending>, blobs: seq<Blob>, n: nat)
    requires sc.column !in sc.keyCols && |blobs| == |pending| && n < |pending|
    requires HasKey(rows, sc, pending[n].key)
    requires forall i | 0 <= i < |rows| :: !Addresses(pending[n].key, Rewrite(rows, sc, pending, blobs)[i], sc.keyCols)
    ensures !Verified(pending, n)
  {
    var i :| 0 <= i < |rows| && KeyOf(rows[i], sc.keyCols) == pending[n].key;
    RewriteKeepsKeys(rows, sc, pending, blobs, i);
  }

  predicate Opens(enc: Encryptor, v: Value, p: string) {
    v.Bytes? && enc.open(v.blob) == Some(p)
  }

  lemma ReadBackDecides(rows: Rows, sc: SealedColumn, pending: seq<Pending>, blobs: seq<Blob>, enc: Encryptor,
                        n: nat, i: nat)
    requires sc.column !in sc.keyCols && |blobs| == |pending| && n < |pending| && i < |rows|
    requires forall q | 0 <= q < |blobs| :: SealsTo(enc, Bytes(blobs[q]), pending[q].plaintext)
    requires Addresses(pending[n].key, Rewrite(rows, sc, pending, blobs)[i], sc.keyCols)
    ensures Opens(enc, Cell(Rewrite(rows, sc, pending, blobs)[i], sc.column), pending[n].plaintext) <==>
              Verified(pending, n)
  {
    ReadBack(rows, sc, pending, blobs, n, i);
    var h := LastWith(pending, pending[n].key);
    assert SealsTo(enc, Bytes(blobs[h]), pending[h].plaintext);
  }

  /** One entry read back: it opens to its plaintext exactly if no later entry with its key has another. */
  method VerifyEntry(rows: Rows, cur: Rows, sc: SealedColumn, pending: seq<Pending>, enc: Encryptor, n: nat,
                     ghost blobs: seq<Blob>)
    returns (ok: bool)
    requires sc.column !in sc.keyCols && |blobs| == |pending| && n < |pending|
    requires cur == Rewrite(rows, sc, pending, blobs)
    requires forall q | 0 <= q < |blobs| :: SealsTo(enc, Bytes(blobs[q]), pending[q].plaintext)
    requires HasKey(rows, sc, pending[n].key)
    ensures ok <==> Verified(pending, n)
  {
    var hit := SelectOne(cur, sc, pending[n].key);
    if hit.None? {
      Unaddressed(rows, sc, pending, blobs, n);
      return false;
    }
    ReadBackDecides(rows, sc, pending, blobs, enc, n, hit.value);
    ok := Opens(enc, Cell(cur[hit.value], sc.column), pending[n].plaintext);
  }

  /** Verification succeeds exactly if colliding entries agree and every row is read. */
  method VerifyPass(rows: Rows, cur: Rows, sc: SealedColumn, pending: seq<Pending>, enc: Encryptor, faults: Faults,
                    ghost blobs: seq<Blob>)
    returns (r: Result<(), Failure>)
    requires sc.column !in sc.keyCols && |blobs| == |pending|
    requires cur == Rewrite(rows, sc, pending, blobs)
    requires forall q | 0 <= q < |blobs| :: SealsTo(enc, Bytes(blobs[q]), pending[q].plaintext)
    requires forall q | 0 <= q < |pending| :: HasKey(rows, sc, pending[q].key)
    ensures r.Ok? <==> Agreeing(pending) && RereadsFine(faults, sc, |pending|)
    ensures r == Err(Data) ==> !Agreeing(pending)
    ensures r == Err(Fault) ==> !RereadsFine(faults, sc, |pending|)
    ensures r != Err(CommitUnknown)
  {
    for n := 0 to |pending|
      invariant forall q | 0 <= q < n :: Verified(pending, q)
      invariant RereadsFine(faults, sc, n)
    {
      if faults(Reread(sc, n)) { return Err(Fault); }
      var ok := VerifyEntry(rows, cur, sc, pending, enc, n, blobs);
      if !ok {
        assert !Agreeing(pending) by { AgreeingIsVerified(pending); }
        return Err(Data);
      }
    }
    assert Agreeing(pending) by { AgreeingIsVerified(pending); }
    r := Ok(());
  }

  // ---------------------------------------------------------------- one column

  lemma PendingSeparable(rows: Rows, sc: SealedColumn, enc: Encryptor)
    ensures Agreeing(PendingOf(rows, sc, enc)) <==> Separable(rows, sc, enc)
  {
    var pending := PendingOf(rows, sc, enc);
    forall p { PendingMembers(rows, sc, enc, p); }
    forall i | 0 <= i < |rows| && Real(Cell(rows[i], sc.column))
      ensures Pending(KeyOf(rows[i], sc.keyCols), Plain(enc, Cell(rows[i], sc.column))) in pending {}
  }

  lemma RewriteRotates(rows: Rows, sc: SealedColumn, blobs: seq<Blob>, oldEnc: Encryptor, newEnc: Encryptor, i: nat)
    requires sc.column !in sc.keyCols && i < |rows| && Rotatable(rows, sc, oldEnc)
    requires |blobs| == |PendingOf(rows, sc, oldEnc)|
    requires forall q | 0 <= q < |blobs| :: SealsTo(newEnc, Bytes(blobs[q]), PendingOf(rows, sc, oldEnc)[q].plaintext)
    ensures CellRotated(rows, sc, i, Cell(Rewrite(rows, sc, PendingOf(rows, sc, oldEnc), blobs)[i], sc.column),
                        oldEnc, newEnc)
  {
    var pending := PendingOf(rows, sc, oldEnc);
    var h := LastHit(pending, rows[i], sc.keyCols);
    forall p { PendingMembers(rows, sc, oldEnc, p); }
    if h >= 0 {
      assert pending[h] in pending;
      var j :| 0 <= j < |rows| && Real(Cell(rows[j], sc.column))
        && pending[h] == Pending(KeyOf(rows[j], sc.keyCols), Plain(oldEnc, Cell(rows[j], sc.column)));
      assert Hits(rows, sc, j, i);
    } else {
      if Real(Cell(rows[i], sc.column)) { assert Hits(rows, sc, i, i); }
      forall j | 0 <= j < |rows| ensures !Hits(rows, sc, j, i) {
        var p := Pending(KeyOf(rows[j], sc.keyCols), Plain(oldEnc, Cell(rows[j], sc.column)));
        assert Real(Cell(rows[j], sc.column)) ==> p in pending;
      }
    }
  }

  lemma OnlyThatColumn(tx: Tables, tx': Tables, sc: SealedColumn, pending: seq<Pending>, blobs: seq<Blob>)
    requires sc.table in tx && |blobs| == |pending|
    requires tx' == tx[sc.table := Rewrite(tx[sc.table], sc, pending, blobs)]
    ensures forall t, i, c | t in tx && 0 <= i < |tx[t]| && !Sealed([sc], t, c) ::
              Cell(tx'[t][i], c) == Cell(tx[t][i], c)
  {
    forall t, i, c | t in tx && 0 <= i < |tx[t]| && !Sealed([sc], t, c)
      ensures Cell(tx'[t][i], c) == Cell(tx[t][i], c)
    {
      assert sc in [sc];
    }
  }

  method RotateColumn(tx: Tables, sc: SealedColumn, oldEnc: Encryptor, newEnc: Encryptor, faults: Faults)
    returns (r: Result<(Tables, ColumnReport), Failure>)
    requires sc.column !in sc.keyCols && newEnc.Lawful()
    ensures r.Ok? <==>
            sc.table in tx && Rotatable(tx[sc.table], sc, oldEnc) && ColumnFine(faults, sc, tx[sc.table])
    ensures r.Ok? ==> Rotated(tx, r.value.0, [sc], oldEnc, newEnc) && ReportMatches(r.value.1, tx[sc.table], sc)
    ensures r == Err(Data) ==> sc.table !in tx || !Rotatable(tx[sc.table], sc, oldEnc)
    ensures r == Err(Fault) ==> sc.table in tx && !ColumnFine(faults, sc, tx[sc.table])
    ensures r != Err(CommitUnknown)
  {
    if sc.table !in tx { return Err(Data); }
    var rows := tx[sc.table];
    var collected, skippedNull, skippedEmpty := CollectPending(rows, sc, oldEnc, faults);
    PendingCounts(rows, sc, oldEnc);
    if collected.Err? { return Err(collected.error); }
    var pending := collected.value;
    var updated;
    ghost var blobs;
    updated, blobs := UpdatePass(rows, sc, pending, newEnc, faults);
    if updated.Err? { return Err(updated.error); }
    forall q | 0 <= q < |pending| ensures HasKey(rows, sc, pending[q].key) {
      PendingMembers(rows, sc, oldEnc, pending[q]);
    }
    var verified := VerifyPass(rows, updated.value, sc, pending, newEnc, faults, blobs);
    PendingSeparable(rows, sc, oldEnc);
    if verified.Err? { return Err(verified.error); }
    var tx' := tx[sc.table := updated.value];
    forall i | 0 <= i < |rows|
      ensures CellRotated(rows, sc, i, Cell(updated.value[i], sc.column), oldEnc, newEnc)
    {
      RewriteRotates(rows, sc, blobs, oldEnc, newEnc, i);
    }
    OnlyThatColumn(tx, tx', sc, pending, blobs);
    r := Ok((tx', ColumnReport(sc.table, sc.column, |pending|, skippedEmpty, skippedNull)));
  }

  // ---------------------------------------------------------------- all columns

  // The position of a sealed column in SEALED_COLUMNS, as a function of its name alone.
  function Position(table: TableName, column: Column): int {
    match table
    case PeerSecrets => 0
    case CaMaterial => 1
    case OpenvpnClients => 2
    case Ikev2Clients => 3
    case NotifyChannels => 4
    case Servers => 5
    case XrayInstances => if column == EncParams then 6 else 7
    case XrayClients => 8
    case TlsState => 9
    case AcmeCache => 10
    case TlsSelfSigned => if column == CaKeyEnc then 11 else 12
    case LdapSettings => 13
    case OidcSettings => 14
    case OtherTable(_) => 15
  }

  predicate Identifies(column: Column) {
    column.Provider? || column.PublicKey? || column.Cn? || column.Kind? || column.Id? || column.Name?
    || column.CacheKey?
  }

  lemma SealedColumnAt(i: nat)
    requires i < |SEALED_COLUMNS|
    ensures Position(SEALED_COLUMNS[i].table, SEALED_COLUMNS[i].column) == i
    ensures !Identifies(SEALED_COLUMNS[i].column)
    ensures forall k | 0 <= k < |SEALED_COLUMNS[i].keyCols| :: Identifies(SEALED_COLUMNS[i].keyCols[k])
  {
  }

  // The bytea columns of the schema, table by table (internal/store/migrations): nothing but ciphertext is bytea.
  function ByteaColumns(table: TableName): set<Column> {
    match table
    case PeerSecrets => {EncryptedPrivateKey}
    case CaMaterial => {EncKeyPem}
    case OpenvpnClients => {EncKeyPem}
    case Ikev2Clients => {EncKeyPem}
    case NotifyChannels => {Config}
    case Servers => {EncKeyPem}
    case XrayInstances => {EncParams, EncRelay}
    case XrayClients => {EncCred}
    case TlsState => {ManualKeyEnc}
    case AcmeCache => {CacheValue}
    case TlsSelfSigned => {CaKeyEnc, LeafKeyEnc}
    case LdapSettings => {EncBindPassword}
    case OidcSettings => {EncClientSecret}
    case OtherTable(_) => {}
  }

  // The primary keys of those tables.
  function PrimaryKey(table: TableName): seq<Column> {
    match table
    case PeerSecrets => [Provider, PublicKey]
    case OpenvpnClients => [Provider, Cn]
    case Ikev2Clients => [Provider, Cn]
    case CaMaterial => [Provider]
    case XrayInstances => [Provider]
    case XrayClients => [Provider, Name]
    case NotifyChannels => [Kind]
    case AcmeCache => [CacheKey]
    case _ => [Id]
  }

  // Stored per provider and common name, rotated by common name.
  predicate ByCommonName(table: TableName) {
    table.OpenvpnClients? || table.Ikev2Clients?
  }

  // The sealed column of a table at a position; a table has at most two.
  function At(table: TableName, column: Column): SealedColumn
    requires column in ByteaColumns(table)
  {
    SealedColumn(table, column, if ByCommonName(table) then [Cn] else PrimaryKey(table))
  }

  lemma EntryOfSchema(i: nat)
    requires i < |SEALED_COLUMNS|
    ensures var sc := SEALED_COLUMNS[i]; sc.column in ByteaColumns(sc.table) && sc == At(sc.table, sc.column)
  {
  }

  lemma ColumnOfSchema(table: TableName, column: Column)
    requires column in ByteaColumns(table)
    ensures 0 <= Position(table, column) < |SEALED_COLUMNS|
    ensures SEALED_COLUMNS[Position(table, column)] == At(table, column)
  {
  }

  /** The list is the schema: a column is rotated exactly if it is bytea, and by the primary key of its table, save that
      the two client tables are rotated by common name alone. */
  lemma SealedColumnsMatchSchema(sc: SealedColumn)
    ensures sc in SEALED_COLUMNS <==> sc.column in ByteaColumns(sc.table) && sc == At(sc.table, sc.column)
    ensures Sealed(SEALED_COLUMNS, sc.table, sc.column) <==> sc.column in ByteaColumns(sc.table)
  {
    if sc.column in ByteaColumns(sc.table) {
      ColumnOfSchema(sc.table, sc.column);
      assert At(sc.table, sc.column) in SEALED_COLUMNS;
    }
    forall x | x in SEALED_COLUMNS ensures x.column in ByteaColumns(x.table) && x == At(x.table, x.column) {
      var i :| 0 <= i < |SEALED_COLUMNS| && SEALED_COLUMNS[i] == x;
      EntryOfSchema(i);
    }
  }

  lemma SealedColumnsWellFormed()
    ensures WellFormed(SEALED_COLUMNS)
  {
    forall i | 0 <= i < |SEALED_COLUMNS| { SealedColumnAt(i); }
  }

  /** Rotating one more column on top of `t1` is rotating it on `t0`: earlier columns touched neither
      its cells nor its keys. */
  lemma ColumnTransfers(t0: Tables, t1: Tables, cols: seq<SealedColumn>, sc: SealedColumn, oldEnc: Encryptor,
                        newEnc: Encryptor)
    requires Rotated(t0, t1, cols, oldEnc, newEnc) && sc.table in t0
    requires !Sealed(cols, sc.table, sc.column)
    requires forall k | k in sc.keyCols :: !Sealed(cols, sc.table, k)
    ensures |t1[sc.table]| == |t0[sc.table]|
    ensures forall i | 0 <= i < |t0[sc.table]| ::
              && Cell(t1[sc.table][i], sc.column) == Cell(t0[sc.table][i], sc.column)
              && KeyOf(t1[sc.table][i], sc.keyCols) == KeyOf(t0[sc.table][i], sc.keyCols)
    ensures Rotatable(t1[sc.table], sc, oldEnc) <==> Rotatable(t0[sc.table], sc, oldEnc)
  {
    var a, b := t0[sc.table], t1[sc.table];
    forall i | 0 <= i < |a|
      ensures Cell(b[i], sc.column) == Cell(a[i], sc.column) && KeyOf(b[i], sc.keyCols) == KeyOf(a[i], sc.keyCols)
    {
      forall k | 0 <= k < |sc.keyCols| ensures KeyOf(b[i], sc.keyCols)[k] == KeyOf(a[i], sc.keyCols)[k] {
        assert sc.keyCols[k] in sc.keyCols;
      }
    }
  }

  lemma FreshColumn(cols: seq<SealedColumn>, sc: SealedColumn)
    requires WellFormed(cols + [sc])
    ensures !Sealed(cols, sc.table, sc.column) && sc.column !in sc.keyCols
    ensures forall k | k in sc.keyCols :: !Sealed(cols, sc.table, k)
    ensures forall c | c in cols :: c.table != sc.table || c.column != sc.column
  {
    var all := cols + [sc];
    assert all[|cols|] == sc;
    forall c | c in cols ensures c.table != sc.table || c.column != sc.column {
      var i :| 0 <= i < |cols| && cols[i] == c;
      assert all[i] == c;
    }
    assert forall c | c in cols :: c in all;
  }

  lemma CollisionTransfers(a: Rows, b: Rows, sc: SealedColumn, i: nat)
    requires |a| == |b| && i < |a|
    requires forall j | 0 <= j < |a| ::
               Cell(a[j], sc.column) == Cell(b[j], sc.column) && KeyOf(a[j], sc.keyCols) == KeyOf(b[j], sc.keyCols)
    ensures forall j | 0 <= j < |a| :: Hits(a, sc, j, i) <==> Hits(b, sc, j, i)
    ensures Collides(a, sc, i) <==> Collides(b, sc, i)
  {
  }

  lemma ColumnAdds(t0: Tables, t1: Tables, t2: Tables, cols: seq<SealedColumn>, sc: SealedColumn,
                   oldEnc: Encryptor, newEnc: Encryptor)
    requires Rotated(t0, t1, cols, oldEnc, newEnc) && Rotated(t1, t2, [sc], oldEnc, newEnc)
    requires WellFormed(cols + [sc])
    ensures Rotated(t0, t2, cols + [sc], oldEnc, newEnc)
  {
    FreshColumn(cols, sc);
    assert sc in [sc];
    ColumnTransfers(t0, t1, cols, sc, oldEnc, newEnc);
    forall c | c in cols + [sc]
      ensures c.table in t0 && ColumnRotated(t0[c.table], t2[c.table], c, oldEnc, newEnc)
    {
      if c in cols {
        assert !Sealed([sc], c.table, c.column);
        assert forall i | 0 <= i < |t0[c.table]| :: Cell(t2[c.table][i], c.column) == Cell(t1[c.table][i], c.column);
      } else {
        var a, b := t0[sc.table], t1[sc.table];
        forall i | 0 <= i < |a| ensures CellRotated(a, sc, i, Cell(t2[sc.table][i], sc.column), oldEnc, newEnc) {
          assert CellRotated(b, sc, i, Cell(t2[sc.table][i], sc.column), oldEnc, newEnc);
          CollisionTransfers(a, b, sc, i);
        }
      }
    }
    forall t, i, c | t in t0 && 0 <= i < |t0[t]| && !Sealed(cols + [sc], t, c)
      ensures Cell(t2[t][i], c) == Cell(t0[t][i], c)
    {
      assert forall x | x in cols || x in [sc] :: x in cols + [sc];
      assert !Sealed(cols, t, c) && !Sealed([sc], t, c);
    }
  }

  lemma PrefixWellFormed(cols: seq<SealedColumn>, n: nat)
    requires WellFormed(cols) && n <= |cols|
    ensures WellFormed(cols[..n])
  {
    assert forall c | c in cols[..n] :: c in cols;
  }

  lemma {:induction false} CountsTransfer(a: Rows, b: Rows, sc: SealedColumn)
    requires |a| == |b|
    requires forall j | 0 <= j < |a| :: Cell(a[j], sc.column) == Cell(b[j], sc.column)
    ensures CountNull(a, sc.column) == CountNull(b, sc.column)
    ensures CountShort(a, sc.column) == CountShort(b, sc.column)
    ensures CountReal(a, sc.column) == CountReal(b, sc.column)
  {
    if a != [] { CountsTransfer(a[..|a| - 1], b[..|b| - 1], sc); }
  }

  method RotateAll(tables: Tables, cols: seq<SealedColumn>, oldEnc: Encryptor, newEnc: Encryptor, faults: Faults)
    returns (r: Result<(Tables, seq<ColumnReport>), Failure>)
    requires WellFormed(cols) && newEnc.Lawful()
    ensures r.Ok? <==> AllRotatable(tables, cols, oldEnc) && AllFine(faults, tables, cols)
    ensures r.Ok? ==> Rotated(tables, r.value.0, cols, oldEnc, newEnc)
    ensures r.Ok? ==> |r.value.1| == |cols|
    ensures r.Ok? ==> forall k | 0 <= k < |cols| :: ReportMatches(r.value.1[k], tables[cols[k].table], cols[k])
    ensures r == Err(Data) ==> !AllRotatable(tables, cols, oldEnc)
    ensures r == Err(Fault) ==> !AllFine(faults, tables, cols)
    ensures r != Err(CommitUnknown)
  {
    var tx := tables;
    var report: seq<ColumnReport> := [];
    for n := 0 to |cols|
      invariant Rotated(tables, tx, cols[..n], oldEnc, newEnc)
      invariant AllRotatable(tables, cols[..n], oldEnc) && AllFine(faults, tables, cols[..n])
      invariant |report| == n
      invariant forall k | 0 <= k < n ::
                  cols[k] in cols[..n] && ReportMatches(report[k], tables[cols[k].table], cols[k])
    {
      var sc := cols[n];
      assert cols[..n + 1] == cols[..n] + [sc];
      PrefixWellFormed(cols, n + 1);
      FreshColumn(cols[..n], sc);
      if sc.table in tables {
        ColumnTransfers(tables, tx, cols[..n], sc, oldEnc, newEnc);
        CountsTransfer(tables[sc.table], tx[sc.table], sc);
      }
      var one := RotateColumn(tx, sc, oldEnc, newEnc, faults);
      if one.Err? {
        assert sc in cols;
        return Err(one.error);
      }
      ColumnAdds(tables, tx, one.value.0, cols[..n], sc, oldEnc, newEnc);
      tx := one.value.0;
      report := report + [one.value.1];
    }
    assert cols[..|cols|] == cols;
    r := Ok((tx, report));
  }

  /** The database, changed only by a commit. */
  class Database {
    var tables: Tables

    constructor (tables: Tables)
      ensures this.tables == tables
    {
      this.tables := tables;
    }

    /** All or nothing. The rotation succeeds exactly if the data can be rotated, no statement it takes fails and its
        COMMIT is acknowledged; then every sealed column is rotated. A dry run and every failure before COMMIT leave
        the database identical; a lost COMMIT leaves it identical or fully rotated. A failure has the reason it
        reports. */
    method Rotate(oldEnc: Encryptor, newEnc: Encryptor, dryRun: bool, faults: Faults, fate: CommitFate)
      returns (r: Result<seq<ColumnReport>, Failure>)
      requires newEnc.Lawful()
      modifies this
      ensures r.Ok? <==>
              && AllRotatable(old(tables), SEALED_COLUMNS, oldEnc)
              && !faults(Begin) && AllFine(faults, old(tables), SEALED_COLUMNS) && (dryRun || fate.Acknowledged?)
      ensures r.Ok? && !dryRun ==> Rotated(old(tables), tables, SEALED_COLUMNS, oldEnc, newEnc)
      ensures r.Ok? ==> |r.value| == |SEALED_COLUMNS|
      ensures r.Ok? ==> forall k | 0 <= k < |SEALED_COLUMNS| ::
                SEALED_COLUMNS[k] in SEALED_COLUMNS
                && ReportMatches(r.value[k], old(tables)[SEALED_COLUMNS[k].table], SEALED_COLUMNS[k])
      ensures dryRun || r == Err(Fault) || r == Err(Data) ==> tables == old(tables)
      ensures r == Err(CommitUnknown) ==>
                && !dryRun && !fate.Acknowledged? && AllRotatable(old(tables), SEALED_COLUMNS, oldEnc)
                && if fate.LostBefore? then tables == old(tables)
                   else Rotated(old(tables), tables, SEALED_COLUMNS, oldEnc, newEnc)
      ensures r == Err(Data) ==> !AllRotatable(old(tables), SEALED_COLUMNS, oldEnc)
      ensures r == Err(Fault) ==> faults(Begin) || !AllFine(faults, old(tables), SEALED_COLUMNS)
    {
      if faults(Begin) { return Err(Fault); }
      SealedColumnsWellFormed();
      var rotated := RotateAll(tables, SEALED_COLUMNS, oldEnc, newEnc, faults);
      if rotated.Err? { return Err(rotated.error); }
      var (tx, report) := rotated.value;
      if dryRun { return Ok(report); }
      if fate.LostBefore? { return Err(CommitUnknown); }
      tables := tx;
      if fate.LostAfter? { return Err(CommitUnknown); }
      r := Ok(report);
    }
  }

  // ---------------------------------------------------------------- consequences

  /** The key columns identify rows. */
  ghost predicate UniqueKeys(rows: Rows, keyCols: seq<Column>) {
    forall i, j | 0 <= i < j < |rows| :: KeyOf(rows[i], keyCols) != KeyOf(rows[j], keyCols)
  }

  /** With unique keys a rotation touches nothing but real ciphertext: a NULL, a placeholder and every
      column that is not sealed stay as they were. */
  lemma UniqueKeysKeepTheRest(t0: Tables, t1: Tables, cols: seq<SealedColumn>, oldEnc: Encryptor, newEnc: Encryptor,
                              t: TableName, i: nat, c: Column)
    requires Rotated(t0, t1, cols, oldEnc, newEnc)
    requires forall sc | sc in cols :: sc.table in t0 && UniqueKeys(t0[sc.table], sc.keyCols)
    requires t in t0 && i < |t0[t]|
    ensures !Sealed(cols, t, c) || !Real(Cell(t0[t][i], c)) ==> Cell(t1[t][i], c) == Cell(t0[t][i], c)
  {
    if Sealed(cols, t, c) && !Real(Cell(t0[t][i], c)) {
      var sc :| sc in cols && sc.table == t && sc.column == c;
      assert CellRotated(t0[t], sc, i, Cell(t1[t][i], c), oldEnc, newEnc);
      assert !Collides(t0[t], sc, i);
    }
  }

  /** The primary keys hold: no two rows of a table share one, and no part of one is NULL. */
  ghost predicate KeysHold(t0: Tables) {
    forall t | t in t0 ::
      && UniqueKeys(t0[t], PrimaryKey(t))
      && forall i | 0 <= i < |t0[t]| :: Null !in KeyOf(t0[t][i], PrimaryKey(t))
  }

  lemma PrimaryKeySeparates(rows: Rows, sc: SealedColumn, enc: Encryptor)
    requires UniqueKeys(rows, sc.keyCols)
    requires forall i | 0 <= i < |rows| :: Null !in KeyOf(rows[i], sc.keyCols)
    ensures Separable(rows, sc, enc)
  {
    forall i, j | 0 <= i < |rows| && 0 <= j < |rows| && KeyOf(rows[i], sc.keyCols) == KeyOf(rows[j], sc.keyCols)
      ensures i == j {}
  }

  lemma SchemaSeparates(t0: Tables, sc: SealedColumn, enc: Encryptor)
    requires KeysHold(t0) && sc in SEALED_COLUMNS && sc.table in t0 && !ByCommonName(sc.table)
    ensures Separable(t0[sc.table], sc, enc)
  {
    assert sc.keyCols == PrimaryKey(sc.table) by { SealedColumnsMatchSchema(sc); }
    PrimaryKeySeparates(t0[sc.table], sc, enc);
  }

  /** In a database that keeps its primary keys a rotation can fail on its data for two reasons alone: a cell that does
      not open, or two clients of one of the two client tables with one common name and different secrets. */
  lemma RotatableExactly(t0: Tables, enc: Encryptor)
    requires KeysHold(t0)
    ensures AllRotatable(t0, SEALED_COLUMNS, enc) <==>
            forall sc | sc in SEALED_COLUMNS ::
              sc.table in t0 && Readable(t0[sc.table], sc, enc)
              && (ByCommonName(sc.table) ==> Separable(t0[sc.table], sc, enc))
  {
    forall sc | sc in SEALED_COLUMNS && sc.table in t0 && !ByCommonName(sc.table)
      ensures Separable(t0[sc.table], sc, enc)
    {
      SchemaSeparates(t0, sc, enc);
    }
  }

  /** Rotating there and back gives every secret its old plaintext under the old key, collisions or not. */
  lemma ThereAndBack(t0: Tables, t1: Tables, t2: Tables, cols: seq<SealedColumn>, oldEnc: Encryptor, newEnc: Encryptor,
                     sc: SealedColumn, i: nat)
    requires Rotated(t0, t1, cols, oldEnc, newEnc) && Rotated(t1, t2, cols, newEnc, oldEnc)
    requires sc in cols && i < |t0[sc.table]| && Real(Cell(t0[sc.table][i], sc.column))
    ensures oldEnc.open(Cell(t0[sc.table][i], sc.column).blob).Some?
    ensures SealsTo(oldEnc, Cell(t2[sc.table][i], sc.column), oldEnc.open(Cell(t0[sc.table][i], sc.column).blob).value)
  {
    assert CellRotated(t0[sc.table], sc, i, Cell(t1[sc.table][i], sc.column), oldEnc, newEnc);
    assert CellRotated(t1[sc.table], sc, i, Cell(t2[sc.table][i], sc.column), newEnc, oldEnc);
  }

  lemma OpenvpnIsRotatedByCn(sc: SealedColumn)
    requires sc == SealedColumn(OpenvpnClients, EncKeyPem, [Cn])
    ensures sc in SEALED_COLUMNS
  {
    assert SEALED_COLUMNS[2] == sc;
  }

  /** Two OpenVPN clients of different providers may share a common name: `openvpn_clients` is stored per
      (provider, cn) but rotated by cn. If their keys differ, no rotation can succeed. */
  lemma SharedCommonNameBlocksRotation(t0: Tables, enc: Encryptor, i: nat, j: nat)
    requires OpenvpnClients in t0 && i < |t0[OpenvpnClients]| && j < |t0[OpenvpnClients]|
    requires var a, b := t0[OpenvpnClients][i], t0[OpenvpnClients][j];
             && Cell(a, Provider) != Cell(b, Provider) && Cell(a, Cn) == Cell(b, Cn)
             && Real(Cell(a, EncKeyPem)) && Real(Cell(b, EncKeyPem))
             && Plain(enc, Cell(a, EncKeyPem)) != Plain(enc, Cell(b, EncKeyPem))
    ensures !AllRotatable(t0, SEALED_COLUMNS, enc)
  {
    var sc := SealedColumn(OpenvpnClients, EncKeyPem, [Cn]);
    OpenvpnIsRotatedByCn(sc);
    assert KeyOf(t0[OpenvpnClients][i], sc.keyCols) == KeyOf(t0[OpenvpnClients][j], sc.keyCols);
  }
}
