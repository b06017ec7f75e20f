/** Encrypted fields: writing and reading them, and re-encrypting a table from one
    key to another with a preflight, in pages, interruptible and resumable. */
module Rotation {
  import opened Wrappers
  import opened Ordering

  const ENC_STORAGE_PREFIX := "enc:"
  const DEFAULT_ENCRYPTION_KEY := "default"
  const MAX_LIMIT: nat := 200

  /** A stored column value. Other is any value that is neither a string nor a
      byte slice, carried as the text formatting it gives. */
  datatype Cell = Null | Text(s: string) | Blob(s: string, shown: string) | Other(shown: string) {
    function Sprint(): string {
      match this
      case Null => "<nil>"
      case Text(s) => s
      case Blob(_, shown) => shown
      case Other(shown) => shown
    }
  }

  /** Keys, ciphers, digests and base64, abstract. Encryption is randomised: the
      nonce stands for what it draws. */
  datatype KeyProvider = KeyProvider(
    encrypt: (string, string, int) -> Option<string>,
    decrypt: string -> Option<string>,
    keyIDOf: string -> Option<string>,
    hmac: (string, string) -> Option<string>,
    blindIndexKey: Option<string>,
    encode: string -> string,
    decode: string -> Option<string>)
  {
    /** An envelope opens to what was sealed and names the key it was sealed with. */
    ghost predicate Lawful() {
      && (forall k, p, n {:trigger encrypt(k, p, n)} :: encrypt(k, p, n).Some? ==>
            decrypt(encrypt(k, p, n).value) == Some(p) && keyIDOf(encrypt(k, p, n).value) == Some(k))
      && (forall b {:trigger encode(b)} :: decode(encode(b)) == Some(b))
    }
  }

  datatype Field = Field(dbName: string, unique: bool, encryptionKey: string) {
    function Companion(): string { dbName + "_hmac" }
    function KeyID(): string { if encryptionKey == "" then DEFAULT_ENCRYPTION_KEY else encryptionKey }
  }

  /** Column names are distinct and none is the digest column of another. */
  ghost predicate Apart(fields: seq<Field>) {
    && (forall i, j :: 0 <= i < j < |fields| ==> fields[i].dbName != fields[j].dbName)
    && (forall f, g :: f in fields && g in fields ==> f.dbName != g.Companion())
  }

  type Data = map<string, Cell>

  // ---- what a stored value means ---------------------------------------------

  /** A column as its readers see it: a value in the clear, an envelope by its key
      and plaintext, or something that does not decode. */
  datatype View = Raw(cell: Cell) | Malformed(cell: Cell) | Sealed(keyID: Option<string>, plaintext: Option<string>)

  predicate IsEnvelope(cell: Cell) {
    cell.Text? && ENC_STORAGE_PREFIX <= cell.s
  }

  function ViewOf(kp: KeyProvider, cell: Cell): View {
    if !IsEnvelope(cell) then Raw(cell)
    else
      var d := kp.decode(cell.s[|ENC_STORAGE_PREFIX|..]);
      if d.None? then Malformed(cell) else Sealed(kp.keyIDOf(d.value), kp.decrypt(d.value))
  }

  /** What rotation makes of a column: the same plaintext under the new key. */
  function RotatedView(oldKey: string, newKey: string, v: View): View {
    if v.Sealed? && v.keyID == Some(oldKey) then Sealed(Some(newKey), v.plaintext) else v
  }

  function Stored(kp: KeyProvider, envelope: string): Cell {
    Text(ENC_STORAGE_PREFIX + kp.encode(envelope))
  }

  lemma StoredView(kp: KeyProvider, k: string, p: string, n: int)
    requires kp.Lawful() && kp.encrypt(k, p, n).Some?
    ensures ViewOf(kp, Stored(kp, kp.encrypt(k, p, n).value)) == Sealed(Some(k), Some(p))
    ensures IsEnvelope(Stored(kp, kp.encrypt(k, p, n).value))
  {
    var e := kp.encrypt(k, p, n).value;
    assert (ENC_STORAGE_PREFIX + kp.encode(e))[|ENC_STORAGE_PREFIX|..] == kp.encode(e);
  }

  /** The key digests are kept under, and whether it is independent of the field keys. */
  function BlindIndexKeyID(kp: KeyProvider, encryptionKeyID: string): (string, bool) {
    if kp.blindIndexKey.Some? && kp.blindIndexKey.value != "" then (kp.blindIndexKey.value, true) else (encryptionKeyID, false)
  }

  // ---- writing and reading rows --------------------------------------------------

  /** The columns of `after` hold for field f what a write of `before` stores. */
  ghost predicate EncryptedField(kp: KeyProvider, f: Field, before: Data, after: Data) {
    if f.dbName !in before || before[f.dbName].Null? then
      SameAt(before, after, f.dbName) && SameAt(before, after, f.Companion())
    else
      var plain := before[f.dbName].Sprint();
      if plain == "" then
        SameAt(before, after, f.dbName)
        && (if f.unique then f.Companion() in after && after[f.Companion()] == Text("") else SameAt(before, after, f.Companion()))
      else
        && f.dbName in after && IsEnvelope(after[f.dbName])
        && ViewOf(kp, after[f.dbName]) == Sealed(Some(f.KeyID()), Some(plain))
        && (if f.unique then
              var mac := kp.hmac(BlindIndexKeyID(kp, f.KeyID()).0, plain);
              mac.Some? && f.Companion() in after && after[f.Companion()] == Text(kp.encode(mac.value))
            else SameAt(before, after, f.Companion()))
  }

  predicate SameAt(before: Data, after: Data, col: string) {
    (col in before <==> col in after) && (col in before ==> before[col] == after[col])
  }

  predicate FieldColumn(fields: seq<Field>, col: string) {
    exists f | f in fields :: f.dbName == col || f.Companion() == col
  }

  /** Encrypts the encrypted fields of a write map, in order, and writes the digest
      of each unique one beside it. */
  method EncryptFields(kp: KeyProvider, fields: seq<Field>, data: Data) returns (ok: bool, out: Data)
    requires kp.Lawful() && Apart(fields)
    ensures ok ==> forall f :: f in fields ==> EncryptedField(kp, f, data, out)
    ensures ok ==> forall col :: !FieldColumn(fields, col) ==> SameAt(data, out, col)
  {
    out := data;
    var i := 0;
    while i < |fields|
      invariant 0 <= i <= |fields|
      invariant forall j :: 0 <= j < i ==> EncryptedField(kp, fields[j], data, out)
      invariant forall j :: i <= j < |fields| ==> SameAt(data, out, fields[j].dbName) && SameAt(data, out, fields[j].Companion())
      invariant forall col :: !FieldColumn(fields, col) ==> SameAt(data, out, col)
    {
      var f := fields[i];
      ghost var prev := out;
      forall j | 0 <= j < |fields| && j != i
        ensures fields[j].dbName != f.dbName && fields[j].dbName != f.Companion()
        ensures fields[j].Companion() != f.dbName && fields[j].Companion() != f.Companion()
      {
        CompanionsDiffer(fields[j], f);
      }
      assert FieldColumn(fields, f.dbName) && FieldColumn(fields, f.Companion());
      if f.dbName in out && !out[f.dbName].Null? {
        var plaintext := out[f.dbName].Sprint();
        if plaintext == "" {
          if f.unique { out := out[f.Companion() := Text("")]; }
        } else {
          var nonce: int := *;
          var envelope := kp.encrypt(f.KeyID(), plaintext, nonce);
          if envelope.None? { return false, out; }
          StoredView(kp, f.KeyID(), plaintext, nonce);
          out := out[f.dbName := Stored(kp, envelope.value)];
          if f.unique {
            var mac := kp.hmac(BlindIndexKeyID(kp, f.KeyID()).0, plaintext);
            if mac.None? { return false, out; }
            out := out[f.Companion() := Text(kp.encode(mac.value))];
          }
        }
      }
      assert EncryptedField(kp, f, data, out);
      forall j | 0 <= j < i ensures EncryptedField(kp, fields[j], data, out) {
        assert EncryptedField(kp, fields[j], data, prev);
        assert SameAt(prev, out, fields[j].dbName) && SameAt(prev, out, fields[j].Companion());
      }
      i := i + 1;
    }
    ok := true;
  }

  lemma CompanionsDiffer(f: Field, g: Field)
    ensures f.Companion() == g.Companion() ==> f.dbName == g.dbName
  {
    if f.Companion() == g.Companion() {
      assert f.dbName == f.Companion()[..|f.Companion()| - 5] && g.dbName == g.Companion()[..|g.Companion()| - 5];
    }
  }

  /** A column after reading: digests gone, envelopes opened, the rest as stored. */
  ghost predicate DecryptedField(kp: KeyProvider, f: Field, before: Data, after: Data) {
    && f.Companion() !in after
    && (f.dbName in before <==> f.dbName in after)
    && (f.dbName in before ==>
          if IsEnvelope(before[f.dbName])
          then ViewOf(kp, before[f.dbName]).Sealed? && ViewOf(kp, before[f.dbName]).plaintext.Some?
               && after[f.dbName] == Text(ViewOf(kp, before[f.dbName]).plaintext.value)
          else after[f.dbName] == before[f.dbName])
  }

  predicate Unreadable(kp: KeyProvider, data: Data, f: Field) {
    f.dbName in data && IsEnvelope(data[f.dbName])
    && (ViewOf(kp, data[f.dbName]).Malformed? || ViewOf(kp, data[f.dbName]).plaintext.None?)
  }

  /** Decrypts in place; a value without the prefix is left alone. */
  method DecryptFields(kp: KeyProvider, fields: seq<Field>, data: Data) returns (ok: bool, out: Data)
    requires Apart(fields)
    ensures ok <==> forall f :: f in fields ==> !Unreadable(kp, data, f)
    ensures ok ==> forall f :: f in fields ==> DecryptedField(kp, f, data, out)
    ensures ok ==> forall col :: !FieldColumn(fields, col) ==> SameAt(data, out, col)
  {
    out := data;
    var i := 0;
    while i < |fields|
      invariant 0 <= i <= |fields|
      invariant forall j :: 0 <= j < i ==> DecryptedField(kp, fields[j], data, out) && !Unreadable(kp, data, fields[j])
      invariant forall j :: i <= j < |fields| ==> SameAt(data, out, fields[j].dbName)
      invariant forall col :: !FieldColumn(fields, col) ==> SameAt(data, out, col)
    {
      var f := fields[i];
      ghost var prev := out;
      forall j | 0 <= j < |fields| && j != i
        ensures fields[j].dbName != f.dbName && fields[j].dbName != f.Companion() && fields[j].Companion() != f.dbName
      {
      }
      assert FieldColumn(fields, f.dbName) && FieldColumn(fields, f.Companion());
      out := out - {f.Companion()};
      if f.dbName in out && IsEnvelope(out[f.dbName]) {
        var envelope := kp.decode(out[f.dbName].s[|ENC_STORAGE_PREFIX|..]);
        if envelope.None? { assert Unreadable(kp, data, f); return false, out; }
        var plaintext := kp.decrypt(envelope.value);
        if plaintext.None? { assert Unreadable(kp, data, f); return false, out; }
        out := out[f.dbName := Text(plaintext.value)];
      }
      forall j | 0 <= j < i ensures DecryptedField(kp, fields[j], data, out) {
        assert SameAt(prev, out, fields[j].dbName);
        assert DecryptedField(kp, fields[j], data, prev);
      }
      i := i + 1;
    }
    ok := true;
  }

  function ReadBack(c: Cell): Cell {
    if c.Null? || c.Sprint() == "" then c else Text(c.Sprint())
  }

  /** Reading back what was written always succeeds, gives every field its
      formatted value and shows no digest. */
  lemma WriteThenRead(kp: KeyProvider, fields: seq<Field>, written: Data, stored: Data, f: Field)
    requires Apart(fields) && f in fields
    requires EncryptedField(kp, f, written, stored)
    ensures !Unreadable(kp, stored, f)
    ensures forall read :: DecryptedField(kp, f, stored, read) ==>
              && f.Companion() !in read
              && (f.dbName in read <==> f.dbName in written)
              && (f.dbName in written ==> read[f.dbName] == ReadBack(written[f.dbName]))
  {
  }

  // ---- one row of a rotation ---------------------------------------------------

  datatype Stage = DecodeEnvelope | ReadKeyID | Decrypt | BlindIndex | Encrypt

  datatype Failure = Failure(rowID: string, field: string, stage: Stage)

  datatype Check = Ignore | Fail(stage: Stage) | Rotate(plaintext: string)

  function DigestText(data: Data, f: Field): string {
    if f.Companion() !in data then ""
    else match data[f.Companion()] case Text(s) => s case Blob(s, _) => s case _ => ""
  }

  /** What rotation has to do about one field of one row. */
  function Inspect(kp: KeyProvider, f: Field, data: Data, oldKey: string, indexKey: string): Check {
    if f.dbName !in data then Ignore
    else match ViewOf(kp, data[f.dbName])
      case Raw(_) => Ignore
      case Malformed(_) => Fail(DecodeEnvelope)
      case Sealed(keyID, plaintext) =>
        if keyID.None? then Fail(ReadKeyID)
        else if keyID.value != oldKey && !f.unique then Ignore
        else if plaintext.None? then Fail(Decrypt)
        else if f.unique && !DigestMatches(kp, f, data, indexKey, plaintext.value) then Fail(BlindIndex)
        else if keyID.value != oldKey then Ignore
        else Rotate(plaintext.value)
  }

  predicate DigestMatches(kp: KeyProvider, f: Field, data: Data, indexKey: string, plaintext: string) {
    var mac := kp.hmac(indexKey, plaintext);
    mac.Some? && DigestText(data, f) == kp.encode(mac.value)
  }

  /** No field of the row stands in the way of rotating it. */
  ghost predicate RowClean(job: Job, data: Data) {
    forall f :: f in job.fields ==> !job.Check(f, data).Fail?
  }

  predicate HoldsOldKey(job: Job, data: Data) {
    exists f | f in job.fields :: job.Check(f, data).Rotate?
  }

  /** What stays fixed through one rotation. */
  datatype Job = Job(kp: KeyProvider, fields: seq<Field>, oldKey: string, newKey: string, indexKey: string) {
    function Check(f: Field, data: Data): Check { Inspect(kp, f, data, oldKey, indexKey) }

    ghost predicate Valid() { kp.Lawful() && Apart(fields) }
  }

  /** after is before with every old-key envelope resealed under the new key, same
      plaintext, and every other column untouched. */
  ghost predicate RotatedData(job: Job, before: Data, after: Data) {
    && before.Keys == after.Keys
    && (forall f :: f in job.fields && job.Check(f, before).Rotate? ==>
          ViewOf(job.kp, after[f.dbName]) == Sealed(Some(job.newKey), Some(job.Check(f, before).plaintext)))
    && (forall col :: col in before && !RotatesColumn(job, before, col) ==> after[col] == before[col])
  }

  predicate RotatesColumn(job: Job, data: Data, col: string) {
    exists f | f in job.fields :: f.dbName == col && job.Check(f, data).Rotate?
  }

  lemma OneFieldPerColumn(fields: seq<Field>, f: Field, g: Field)
    requires Apart(fields) && f in fields && g in fields && f.dbName == g.dbName
    ensures f == g
  {
  }

  /** Rotation in the reader's terms: every field of a clean row holds the same
      plaintext, under the new key if it was under the old one, and every digest
      is what it was. */
  lemma RotationKeepsPlaintexts(job: Job, before: Data, after: Data, f: Field)
    requires job.Valid() && RowClean(job, before) && RotatedData(job, before, after) && f in job.fields
    ensures f.dbName in before ==> ViewOf(job.kp, after[f.dbName]) == RotatedView(job.oldKey, job.newKey, ViewOf(job.kp, before[f.dbName]))
    ensures SameAt(before, after, f.Companion())
  {
    hide KeyProvider.Lawful;
    if f.dbName in before && RotatesColumn(job, before, f.dbName) {
      var g :| g in job.fields && g.dbName == f.dbName && job.Check(g, before).Rotate?;
      OneFieldPerColumn(job.fields, f, g);
    }
  }

  /** After rotation to a different key no field of the row holds the old one. */
  lemma RotationLeavesNoOldKey(job: Job, before: Data, after: Data)
    requires job.Valid() && RowClean(job, before) && RotatedData(job, before, after) && job.oldKey != job.newKey
    ensures forall f :: f in job.fields && f.dbName in after ==>
              ViewOf(job.kp, after[f.dbName]).Sealed? ==> ViewOf(job.kp, after[f.dbName]).keyID != Some(job.oldKey)
    ensures !HoldsOldKey(job, after)
  {
    forall f | f in job.fields && f.dbName in after
      ensures ViewOf(job.kp, after[f.dbName]).Sealed? ==> ViewOf(job.kp, after[f.dbName]).keyID != Some(job.oldKey)
    {
      RotationKeepsPlaintexts(job, before, after, f);
    }
  }

  /** A row that held no old-key envelope is rotated only by leaving it alone, and
      one that did is not rotated by leaving it alone. */
  lemma UntouchedIsRotatedIff(job: Job, data: Data)
    requires job.Valid() && job.oldKey != job.newKey
    ensures RotatedData(job, data, data) <==> !HoldsOldKey(job, data)
  {
    if HoldsOldKey(job, data) {
      var f :| f in job.fields && job.Check(f, data).Rotate?;
      assert ViewOf(job.kp, data[f.dbName]).keyID == Some(job.oldKey);
    }
  }

  /** A row written with a stable digest key passes the preflight. */
  lemma WrittenRowsPassPreflight(job: Job, written: Data, stored: Data)
    requires job.Valid()
    requires forall f :: f in job.fields ==> EncryptedField(job.kp, f, written, stored)
    requires BlindIndexKeyID(job.kp, "") == (job.indexKey, true)
    ensures RowClean(job, stored)
  {
    forall f | f in job.fields ensures !job.Check(f, stored).Fail? {
      assert EncryptedField(job.kp, f, written, stored);
    }
  }

  /** What the scan does about one field: the resealed value to write, or what stands
      in the way. */
  method InspectField(job: Job, f: Field, id: string, row: Data, mutate: bool) returns (stored: Option<Cell>, failure: Option<Failure>)
    requires job.Valid()
    ensures job.Check(f, row).Fail? ==> failure == Some(Failure(id, f.dbName, job.Check(f, row).stage))
    ensures failure.Some? && !job.Check(f, row).Fail? ==> failure == Some(Failure(id, f.dbName, Encrypt)) && mutate && job.Check(f, row).Rotate?
                                                          && CannotSeal(job.kp, job.newKey, job.Check(f, row).plaintext)
    ensures stored.Some? <==> mutate && job.Check(f, row).Rotate? && failure.None?
    ensures stored.Some? ==> ViewOf(job.kp, stored.value) == Sealed(Some(job.newKey), Some(job.Check(f, row).plaintext))
  {
    hide KeyProvider.Lawful;
    stored, failure := None, None;
    if f.dbName !in row || !IsEnvelope(row[f.dbName]) { return; }
    var envelope := job.kp.decode(row[f.dbName].s[|ENC_STORAGE_PREFIX|..]);
    if envelope.None? { return None, Some(Failure(id, f.dbName, DecodeEnvelope)); }
    var keyID := job.kp.keyIDOf(envelope.value);
    if keyID.None? { return None, Some(Failure(id, f.dbName, ReadKeyID)); }
    var targetOldKey := keyID.value == job.oldKey;
    if !targetOldKey && !f.unique { return; }
    var plaintext := job.kp.decrypt(envelope.value);
    if plaintext.None? { return None, Some(Failure(id, f.dbName, Decrypt)); }
    if f.unique {
      var mac := job.kp.hmac(job.indexKey, plaintext.value);
      if mac.None? || DigestText(row, f) != job.kp.encode(mac.value) { return None, Some(Failure(id, f.dbName, BlindIndex)); }
    }
    if !targetOldKey || !mutate { return; }
    var nonce: int := *;
    var newEnv := job.kp.encrypt(job.newKey, plaintext.value, nonce);
    if newEnv.None? { return None, Some(Failure(id, f.dbName, Encrypt)); }
    StoredView(job.kp, job.newKey, plaintext.value, nonce);
    stored := Some(Stored(job.kp, newEnv.value));
  }

  /** The scan of a row after its first i fields. */
  ghost predicate RowScanned(job: Job, id: string, row: Data, mutate: bool, i: nat, update: Data, failures: seq<Failure>)
    requires i <= |job.fields|
  {
    && (forall x :: x in failures ==> x.rowID == id)
    && (failures == [] ==> forall j :: 0 <= j < i ==> !job.Check(job.fields[j], row).Fail?)
    && (RowClean(job, row) ==> forall x :: x in failures ==> x.stage == Encrypt && mutate && HoldsOldKey(job, row))
    && (mutate && failures == [] ==> forall j :: 0 <= j < i && job.Check(job.fields[j], row).Rotate? ==>
          && job.fields[j].dbName in update
          && ViewOf(job.kp, update[job.fields[j].dbName]) == Sealed(Some(job.newKey), Some(job.Check(job.fields[j], row).plaintext)))
    && (forall col :: col in update ==> mutate && exists j :: 0 <= j < i && job.fields[j].dbName == col && job.Check(job.fields[j], row).Rotate?)
  }

  /** A failure says what is wrong with one field of its row. */
  ghost predicate Genuine(job: Job, row: Data, mutate: bool, x: Failure) {
    exists f :: f in job.fields && f.dbName == x.field && GenuineOf(job, f, row, mutate, x.stage)
  }

  ghost predicate GenuineOf(job: Job, f: Field, row: Data, mutate: bool, stage: Stage) {
    match job.Check(f, row)
    case Ignore => false
    case Fail(s) => stage == s
    case Rotate(p) => mutate && stage == Encrypt && CannotSeal(job.kp, job.newKey, p)
  }

  /** Sealing p under the key may fail. */
  ghost predicate CannotSeal(kp: KeyProvider, key: string, p: string) {
    exists n :: kp.encrypt(key, p, n).None?
  }

  /** Among the first i fields each one in the way has its failure, and every
      failure is genuine. */
  ghost predicate FieldsReported(job: Job, id: string, row: Data, mutate: bool, i: nat, failures: seq<Failure>)
    requires i <= |job.fields|
  {
    && (forall j :: 0 <= j < i && job.Check(job.fields[j], row).Fail? ==>
          Failure(id, job.fields[j].dbName, job.Check(job.fields[j], row).stage) in failures)
    && (forall x :: x in failures ==> x.rowID == id && Genuine(job, row, mutate, x))
  }

  lemma FieldReported(job: Job, id: string, row: Data, mutate: bool, i: nat, failures: seq<Failure>, failure: Option<Failure>)
    requires i < |job.fields| && FieldsReported(job, id, row, mutate, i, failures)
    requires var c := job.Check(job.fields[i], row);
             && (c.Fail? ==> failure == Some(Failure(id, job.fields[i].dbName, c.stage)))
             && (failure.Some? && !c.Fail? ==> failure == Some(Failure(id, job.fields[i].dbName, Encrypt)) && mutate && c.Rotate?
                                               && CannotSeal(job.kp, job.newKey, c.plaintext))
    ensures FieldsReported(job, id, row, mutate, i + 1, if failure.Some? then failures + [failure.value] else failures)
  {
    hide Job.Check;
    if failure.Some? {
      assert job.fields[i] in job.fields && GenuineOf(job, job.fields[i], row, mutate, failure.value.stage);
      assert Genuine(job, row, mutate, failure.value);
    }
  }

  /** The failures of one row: one for each field in the way, and no other. */
  ghost predicate RowReported(job: Job, id: string, row: Data, mutate: bool, failures: seq<Failure>) {
    && (forall f :: f in job.fields && job.Check(f, row).Fail? ==> Failure(id, f.dbName, job.Check(f, row).stage) in failures)
    && (forall x :: x in failures ==> x.rowID == id && Genuine(job, row, mutate, x))
  }

  lemma AllFieldsReported(job: Job, id: string, row: Data, mutate: bool, failures: seq<Failure>)
    requires FieldsReported(job, id, row, mutate, |job.fields|, failures)
    ensures RowReported(job, id, row, mutate, failures)
  {
    hide Job.Check, Genuine;
    forall f | f in job.fields && job.Check(f, row).Fail? ensures Failure(id, f.dbName, job.Check(f, row).stage) in failures {
      var j :| 0 <= j < |job.fields| && job.fields[j] == f;
    }
  }

  lemma FieldScanned(job: Job, id: string, row: Data, mutate: bool, i: nat, update: Data, failures: seq<Failure>, stored: Option<Cell>, failure: Option<Failure>)
    requires job.Valid() && i < |job.fields| && RowScanned(job, id, row, mutate, i, update, failures)
    requires var c := job.Check(job.fields[i], row);
             && (c.Fail? ==> failure == Some(Failure(id, job.fields[i].dbName, c.stage)))
             && (failure.Some? && !c.Fail? ==> failure == Some(Failure(id, job.fields[i].dbName, Encrypt)) && mutate && c.Rotate?)
             && (stored.Some? <==> mutate && c.Rotate? && failure.None?)
             && (stored.Some? ==> ViewOf(job.kp, stored.value) == Sealed(Some(job.newKey), Some(c.plaintext)))
    ensures RowScanned(job, id, row, mutate, i + 1, if stored.Some? then update[job.fields[i].dbName := stored.value] else update,
                       if failure.Some? then failures + [failure.value] else failures)
  {
    hide Job.Check, ViewOf, KeyProvider.Lawful;
    var f := job.fields[i];
    assert f in job.fields;
    if stored.Some? {
      assert forall j :: 0 <= j < i ==> job.fields[j].dbName != f.dbName;
    }
  }

  lemma RowScannedEnds(job: Job, id: string, row: Data, mutate: bool, update: Data, failures: seq<Failure>)
    requires job.Valid() && RowScanned(job, id, row, mutate, |job.fields|, update, failures)
    ensures failures == [] ==> RowClean(job, row)
    ensures !mutate ==> update == map[]
    ensures mutate && failures == [] ==> RotatedData(job, row, row + update) && (update == map[] <==> !HoldsOldKey(job, row))
  {
    hide KeyProvider.Lawful, ViewOf;
    if mutate && failures == [] {
      forall col | col in update ensures col in row && RotatesColumn(job, row, col) {
        var j :| 0 <= j < |job.fields| && job.fields[j].dbName == col && job.Check(job.fields[j], row).Rotate?;
      }
    }
  }

  /** The body of the scan for one row: which columns to rewrite, and everything
      that stands in the way. */
  method ScanRow(job: Job, id: string, row: Data, mutate: bool) returns (update: Data, failures: seq<Failure>)
    requires job.Valid()
    ensures forall x :: x in failures ==> x.rowID == id
    ensures RowReported(job, id, row, mutate, failures)
    ensures failures == [] ==> RowClean(job, row)
    ensures RowClean(job, row) ==> forall x :: x in failures ==> x.stage == Encrypt && mutate && HoldsOldKey(job, row)
    ensures !mutate ==> update == map[]
    ensures mutate && failures == [] ==> RotatedData(job, row, row + update) && (update == map[] <==> !HoldsOldKey(job, row))
  {
    hide Job.Check, Job.Valid, RowClean, RotatedData, HoldsOldKey, ViewOf, Genuine, RowReported;
    update, failures := map[], [];
    var i := 0;
    while i < |job.fields|
      invariant 0 <= i <= |job.fields| && RowScanned(job, id, row, mutate, i, update, failures)
      invariant FieldsReported(job, id, row, mutate, i, failures)
    {
      var f := job.fields[i];
      var stored, failure := InspectField(job, f, id, row, mutate);
      FieldScanned(job, id, row, mutate, i, update, failures, stored, failure);
      FieldReported(job, id, row, mutate, i, failures, failure);
      if failure.Some? { failures := failures + [failure.value]; }
      if stored.Some? { update := update[f.dbName := stored.value]; }
      i := i + 1;
    }
    RowScannedEnds(job, id, row, mutate, update, failures);
    AllFieldsReported(job, id, row, mutate, failures);
  }

  // ---- the scan ------------------------------------------------------------------

  datatype Record = Record(visible: bool, data: Data)

  type Table = map<string, Record>

  predicate Visible(rows: Table, id: string) {
    id in rows && rows[id].visible
  }

  function VisibleAbove(rows: Table, last: string): set<string> {
    set id | id in rows && rows[id].visible && Above(id, last)
  }

  /** The ids a scan from a has passed when its cursor stands at b. */
  predicate Passed(id: string, a: string, b: string) {
    Above(id, a) && !Above(id, b)
  }

  /** The table after a scan from a to b: passed rows are rotated unless they
      failed, and nothing else is touched. */
  ghost predicate RotatedUpTo(job: Job, before: Table, after: Table, a: string, b: string, failed: set<string>) {
    && before.Keys == after.Keys
    && (forall id :: id in before ==>
          if before[id].visible && Passed(id, a, b) && id !in failed
          then after[id].visible && RotatedData(job, before[id].data, after[id].data)
          else after[id] == before[id])
  }

  /** The request context: cancelled once it has been polled `remaining` times. */
  class Context {
    var remaining: nat

    constructor (remaining: nat)
      ensures this.remaining == remaining
    {
      this.remaining := remaining;
    }

    method Err() returns (cancelled: bool)
      modifies this
      ensures cancelled == (old(remaining) == 0)
      ensures remaining == if cancelled then 0 else old(remaining) - 1
    {
      cancelled := remaining == 0;
      if !cancelled { remaining := remaining - 1; }
    }
  }

  class Adapter {
    var rows: Table
    const reliable: bool

    constructor (rows: Table, reliable: bool)
      ensures this.rows == rows && this.reliable == reliable
    {
      this.rows, this.reliable := rows, reliable;
    }

    method FindMany(last: string, limit: nat) returns (ok: bool, ids: seq<string>, recs: seq<Data>)
      ensures reliable ==> ok
      ensures ok ==> IsPage(ids, VisibleAbove(rows, last), limit)
      ensures ok ==> |recs| == |ids| && forall i :: 0 <= i < |ids| ==> ids[i] in rows && recs[i] == rows[ids[i]].data
    {
      ok, ids, recs := *, [], [];
      ok := ok || reliable;
      if !ok { return; }
      ids := FirstPage(VisibleAbove(rows, last), limit);
      forall x | x in ids ensures x in rows {}
      recs := seq(|ids|, i requires 0 <= i < |ids| && ids[i] in rows reads this => rows[ids[i]].data);
    }

    method Update(id: string, columns: Data) returns (ok: bool)
      requires Visible(rows, id)
      modifies this
      ensures reliable ==> ok
      ensures rows == if ok then old(rows)[id := Record(true, old(rows)[id].data + columns)] else old(rows)
    {
      ok := *;
      ok := ok || reliable;
      if ok { rows := rows[id := Record(true, rows[id].data + columns)]; }
    }
  }

  datatype Report = Report(startedAfterID: string, lastID: string, scanned: nat, rotated: nat, failures: seq<Failure>, complete: bool)

  function FailedRows(failures: seq<Failure>): set<string> {
    set x | x in failures :: x.rowID
  }

  datatype ScanStatus = Finished | Interrupted | AdapterError

  function PassedRows(rows: Table, a: string, b: string): set<string> {
    set id | id in rows && rows[id].visible && Passed(id, a, b)
  }

  /** The passed rows a scan has rewritten. */
  function RewrittenRows(job: Job, rows: Table, a: string, b: string, failed: set<string>): set<string> {
    set id | id in PassedRows(rows, a, b) && id !in failed && HoldsOldKey(job, rows[id].data)
  }

  /** Where a scan of `before` that began at cursor a stands: what it has written,
      and that its failures are exactly the passed rows it could not treat. */
  ghost predicate ScanState(job: Job, before: Table, after: Table, a: string, mutate: bool, r: Report) {
    && RotatedUpTo(job, before, after, a, r.lastID, if mutate then FailedRows(r.failures) else before.Keys)
    && (r.lastID == a || (Above(r.lastID, a) && Visible(before, r.lastID)))
    && (forall id :: id in FailedRows(r.failures) ==> Visible(before, id) && Passed(id, a, r.lastID))
    && (forall id :: Visible(before, id) && Passed(id, a, r.lastID) && !RowClean(job, before[id].data) ==> id in FailedRows(r.failures))
    && (forall x :: x in r.failures && x.rowID in before && RowClean(job, before[x.rowID].data) ==>
          mutate && x.stage == Encrypt && HoldsOldKey(job, before[x.rowID].data))
    && Reported(job, before, a, r.lastID, mutate, r.failures)
  }

  /** Every field in the way of a passed row is reported, and every report is genuine. */
  ghost predicate Reported(job: Job, before: Table, a: string, b: string, mutate: bool, failures: seq<Failure>) {
    && (forall id, f :: Visible(before, id) && Passed(id, a, b) && f in job.fields && job.Check(f, before[id].data).Fail? ==>
          Failure(id, f.dbName, job.Check(f, before[id].data).stage) in failures)
    && (forall x :: x in failures ==> Visible(before, x.rowID) && Passed(x.rowID, a, b) && Genuine(job, before[x.rowID].data, mutate, x))
  }

  lemma NothingReported(job: Job, before: Table, a: string, mutate: bool)
    ensures Reported(job, before, a, a, mutate, [])
  {
    hide Job.Check;
  }

  lemma ReportedGrows(job: Job, before: Table, a: string, cursor: string, next: string, mutate: bool, failures: seq<Failure>, fails: seq<Failure>)
    requires NextVisible(before, cursor, next) && Reported(job, before, a, cursor, mutate, failures)
    requires cursor == a || (Above(cursor, a) && Visible(before, cursor) && cursor != "")
    requires RowReported(job, next, before[next].data, mutate, fails)
    ensures Reported(job, before, a, next, mutate, failures + fails)
  {
    hide Job.Check, Genuine, Passed, Above, NextVisible;
    PassedGrows(before, a, cursor, next);
    NextIsVisible(before, cursor, next);
    NextIsPassed(before, a, next);
    forall x | x in failures + fails ensures Visible(before, x.rowID) && Passed(x.rowID, a, next) && Genuine(job, before[x.rowID].data, mutate, x) {
      if x in failures {} else { assert x in fails; }
    }
  }

  lemma NextIsPassed(rows: Table, a: string, next: string)
    requires Above(next, a) && next != ""
    ensures Passed(next, a, next)
  {
    LessIrreflexive(next);
  }

  /** next is the first visible row past the cursor. */
  ghost predicate NextVisible(rows: Table, cursor: string, next: string) {
    && Visible(rows, next) && next != "" && Above(next, cursor)
    && (forall x :: Visible(rows, x) && Above(x, cursor) ==> x == next || Above(x, next))
  }

  lemma PassedGrows(rows: Table, a: string, cursor: string, next: string)
    requires NextVisible(rows, cursor, next)
    requires cursor == a || (Above(cursor, a) && Visible(rows, cursor) && cursor != "")
    ensures forall x :: Visible(rows, x) ==> (Passed(x, a, next) <==> Passed(x, a, cursor) || x == next)
    ensures !Passed(next, a, cursor) && Above(next, a)
  {
    LessIrreflexive(next);
    if cursor != a { AboveTrans(a, cursor, next); }
    forall x | Visible(rows, x) && Passed(x, a, cursor) ensures !Above(x, next) {
      if Less(next, x) { LessTransitive(cursor, next, x); }
    }
  }

  lemma NextIsVisible(rows: Table, cursor: string, next: string)
    requires NextVisible(rows, cursor, next)
    ensures Visible(rows, next) && next != ""
  {
  }

  lemma CountsGrow(job: Job, rows: Table, a: string, cursor: string, next: string, failed: set<string>, failed': set<string>)
    requires NextVisible(rows, cursor, next)
    requires cursor == a || (Above(cursor, a) && Visible(rows, cursor) && cursor != "")
    requires failed' == failed || failed' == failed + {next}
    requires next !in failed
    ensures |PassedRows(rows, a, next)| == |PassedRows(rows, a, cursor)| + 1
    ensures |RewrittenRows(job, rows, a, next, failed')| == |RewrittenRows(job, rows, a, cursor, failed)|
              + if next !in failed' && HoldsOldKey(job, rows[next].data) then 1 else 0
  {
    hide HoldsOldKey, Above, Passed, NextVisible;
    PassedGrows(rows, a, cursor, next);
    NextIsVisible(rows, cursor, next);
    assert PassedRows(rows, a, next) == PassedRows(rows, a, cursor) + {next};
    if next !in failed' && HoldsOldKey(job, rows[next].data) {
      assert RewrittenRows(job, rows, a, next, failed') == RewrittenRows(job, rows, a, cursor, failed) + {next};
    } else {
      assert RewrittenRows(job, rows, a, next, failed') == RewrittenRows(job, rows, a, cursor, failed);
    }
  }

  /** One row further: the state after the row was treated or found failing. */
  lemma ScanAdvances(job: Job, before: Table, after: Table, a: string, mutate: bool, r: Report, next: string, fails: seq<Failure>, after': Table, r': Report)
    requires ScanState(job, before, after, a, mutate, r) && "" !in before
    requires NextVisible(before, r.lastID, next)
    requires r'.lastID == next && r'.failures == r.failures + fails
    requires forall x :: x in fails ==> x.rowID == next
    requires RowReported(job, next, before[next].data, mutate, fails)
    requires fails == [] ==> RowClean(job, before[next].data)
    requires RowClean(job, before[next].data) ==> forall x :: x in fails ==> x.stage == Encrypt && mutate && HoldsOldKey(job, before[next].data)
    requires after'.Keys == after.Keys && forall id :: id in after && id != next ==> after'[id] == after[id]
    requires if mutate && fails == [] then after'[next].visible && RotatedData(job, before[next].data, after'[next].data) else after'[next] == after[next]
    ensures ScanState(job, before, after', a, mutate, r')
    ensures FailedRows(r'.failures) == if fails == [] then FailedRows(r.failures) else FailedRows(r.failures) + {next}
    ensures next !in FailedRows(r.failures)
  {
    hide RotatedData, RowClean, Above, Passed, HoldsOldKey, Reported, RowReported;
    PassedGrows(before, a, r.lastID, next);
    ReportedGrows(job, before, a, r.lastID, next, mutate, r.failures, fails);
    FailedMore(r.failures, fails, next);
    assert after[next] == before[next];
  }

  lemma FailedMore(xs: seq<Failure>, ys: seq<Failure>, id: string)
    requires forall y :: y in ys ==> y.rowID == id
    ensures FailedRows(xs + ys) == if ys == [] then FailedRows(xs) else FailedRows(xs) + {id}
  {
    if ys != [] { assert ys[0] in xs + ys && ys[0].rowID == id; } else { assert xs + ys == xs; }
    assert forall x :: x in xs ==> x in xs + ys;
  }

  /** A page read at a cursor lists the next visible rows one after another. */
  lemma PageSteps(rows: Table, last: string, ids: seq<string>, limit: nat, i: nat)
    requires "" !in rows && IsPage(ids, VisibleAbove(rows, last), limit) && i < |ids|
    ensures NextVisible(rows, if i == 0 then last else ids[i - 1], ids[i])
  {
    assert ids[i] in ids;
    var cursor := if i == 0 then last else ids[i - 1];
    if i > 0 { assert ids[i - 1] in ids; }
    forall x | Visible(rows, x) && Above(x, cursor) ensures x == ids[i] || Above(x, ids[i]) {
      if i > 0 { AboveTrans(last, cursor, x); }
      assert x in VisibleAbove(rows, last);
      if x in ids {
        var j :| 0 <= j < |ids| && ids[j] == x;
        if j < i {
          assert i > 0;
          if j < i - 1 { LessTransitive(ids[j], ids[i - 1], ids[j]); }
          LessIrreflexive(ids[j]);
        }
      }
    }
  }

  /** A short page, an empty one included, was the last. */
  lemma ShortPageIsLast(rows: Table, last: string, ids: seq<string>, limit: nat)
    requires "" !in rows && IsPage(ids, VisibleAbove(rows, last), limit) && |ids| < limit
    ensures forall x :: Visible(rows, x) ==> !Above(x, if ids == [] then last else ids[|ids| - 1])
  {
    var cursor := if ids == [] then last else ids[|ids| - 1];
    forall x | Visible(rows, x) && Above(x, cursor) ensures false {
      if ids != [] {
        assert cursor in ids;
        AboveTrans(last, cursor, x);
      }
      assert x in VisibleAbove(rows, last);
      var j :| 0 <= j < |ids| && ids[j] == x;
      if j < |ids| - 1 { LessTransitive(ids[j], cursor, ids[j]); }
      LessIrreflexive(ids[j]);
      assert false;
    }
  }

  lemma SameVisible(job: Job, before: Table, after: Table, a: string, mutate: bool, r: Report)
    requires ScanState(job, before, after, a, mutate, r)
    ensures before.Keys == after.Keys
    ensures forall last :: VisibleAbove(after, last) == VisibleAbove(before, last)
    ensures forall id :: Visible(before, id) && Above(id, r.lastID) ==> after[id] == before[id]
  {
    hide RotatedData, RowClean;
    assert forall id :: id in before ==> before[id].visible == after[id].visible;
  }

  lemma CursorAdvances(rows: Table, last: string, next: string)
    requires Visible(rows, next) && next != "" && Above(next, last)
    ensures VisibleAbove(rows, next) < VisibleAbove(rows, last)
  {
    LessIrreflexive(next);
    assert next in VisibleAbove(rows, last) && next !in VisibleAbove(rows, next);
    forall x | x in VisibleAbove(rows, next) ensures x in VisibleAbove(rows, last) { AboveTrans(last, next, x); }
  }

  /** The counters of a scan so far: every row passed was scanned, and every one of
      them rewritten is counted as rotated. */
  ghost predicate Tallied(job: Job, before: Table, a: string, mutate: bool, report: Report, r: Report) {
    && r.startedAfterID == report.startedAfterID && r.complete == report.complete
    && r.scanned == report.scanned + |PassedRows(before, a, r.lastID)|
    && r.rotated == report.rotated + if mutate then |RewrittenRows(job, before, a, r.lastID, FailedRows(r.failures))| else 0
  }

  lemma TallyStarts(job: Job, before: Table, mutate: bool, r: Report)
    requires r.failures == []
    ensures Tallied(job, before, r.lastID, mutate, r, r)
  {
    ScanStarts(job, before, mutate, r);
  }

  lemma TallyGrows(job: Job, before: Table, a: string, mutate: bool, report: Report, r: Report, r': Report)
    requires Tallied(job, before, a, mutate, report, r)
    requires r'.startedAfterID == r.startedAfterID && r'.complete == r.complete && r'.scanned == r.scanned + 1
    requires |PassedRows(before, a, r'.lastID)| == |PassedRows(before, a, r.lastID)| + 1
    requires if mutate then r'.rotated - r.rotated == |RewrittenRows(job, before, a, r'.lastID, FailedRows(r'.failures))|
                                                     - |RewrittenRows(job, before, a, r.lastID, FailedRows(r.failures))|
             else r'.rotated == r.rotated
    ensures Tallied(job, before, a, mutate, report, r')
  {
    hide PassedRows, RewrittenRows, FailedRows;
  }

  lemma TallyMeans(job: Job, before: Table, a: string, mutate: bool, report: Report, r: Report)
    requires Tallied(job, before, a, mutate, report, r)
    ensures r.startedAfterID == report.startedAfterID && r.complete == report.complete
    ensures r.scanned == report.scanned + |PassedRows(before, a, r.lastID)|
    ensures r.rotated == report.rotated + if mutate then |RewrittenRows(job, before, a, r.lastID, FailedRows(r.failures))| else 0
  {
  }

  /** The rows of one page, polling the context before each. */
  method ScanPage(ctx: Context, adapter: Adapter, job: Job, ids: seq<string>, recs: seq<Data>, mutate: bool, start: Report,
                  ghost report: Report, ghost before: Table, ghost a: string, ghost last: string, ghost pageSize: nat)
    returns (stopped: Option<ScanStatus>, r: Report)
    requires job.Valid() && "" !in before && ids != [] && |recs| == |ids| && start.lastID == last
    requires IsPage(ids, VisibleAbove(before, last), pageSize)
    requires forall i :: 0 <= i < |ids| ==> ids[i] in before && recs[i] == before[ids[i]].data
    requires adapter.rows.Keys == before.Keys
    requires ScanState(job, before, adapter.rows, a, mutate, start) && Tallied(job, before, a, mutate, report, start)
    modifies ctx, adapter
    ensures adapter.rows.Keys == before.Keys && ScanState(job, before, adapter.rows, a, mutate, r)
    ensures stopped in {None, Some(Interrupted), Some(AdapterError)}
    ensures stopped != Some(AdapterError) ==> Tallied(job, before, a, mutate, report, r)
    ensures r.startedAfterID == report.startedAfterID && r.complete == report.complete
    ensures r.rotated == report.rotated + if mutate then |RewrittenRows(job, before, a, r.lastID, FailedRows(r.failures))| else 0
    ensures stopped.None? ==> r.lastID == ids[|ids| - 1] && r.scanned == start.scanned + |ids| && old(ctx.remaining) == ctx.remaining + |ids|
    ensures stopped == Some(Interrupted) ==> ctx.remaining == 0 && old(ctx.remaining) == r.scanned - start.scanned
    ensures adapter.reliable ==> stopped != Some(AdapterError)
  {
    hide RotatedData, RowClean, IsPage, ScanState, NextVisible, PassedRows, RewrittenRows, FailedRows, VisibleAbove, Job.Valid, Tallied, Above;
    r := start;
    var i := 0;
    while i < |ids|
      invariant 0 <= i <= |ids| && adapter.rows.Keys == before.Keys
      invariant r.lastID == if i == 0 then last else ids[i - 1]
      invariant ScanState(job, before, adapter.rows, a, mutate, r) && Tallied(job, before, a, mutate, report, r)
      invariant r.scanned == start.scanned + i && old(ctx.remaining) == ctx.remaining + i
    {
      TallyMeans(job, before, a, mutate, report, r);
      var cancelled := ctx.Err();
      if cancelled { return Some(Interrupted), r; }
      var id := ids[i];
      PageSteps(before, last, ids, pageSize, i);
      NextIsUntouched(job, before, adapter.rows, a, mutate, r, id);
      ghost var was := r;
      var ok;
      ok, r := ScanStep(adapter, job, id, recs[i], mutate, r, before, a);
      if !ok { return Some(AdapterError), r; }
      TallyGrows(job, before, a, mutate, report, was, r);
      i := i + 1;
    }
    TallyMeans(job, before, a, mutate, report, r);
    stopped := None;
  }

  /** Pages through the rows past the cursor, inspecting each and, when mutating,
      rewriting the clean ones; it may be interrupted before any page or row. */
  method ScanEncryptionRotation(ctx: Context, adapter: Adapter, job: Job, pageSize: nat, mutate: bool, report: Report)
    returns (status: ScanStatus, r: Report)
    requires job.Valid() && pageSize >= 1 && "" !in adapter.rows && report.failures == []
    modifies ctx, adapter
    ensures ScanState(job, old(adapter.rows), adapter.rows, report.lastID, mutate, r)
    ensures status == Finished ==> forall id :: Visible(old(adapter.rows), id) ==> !Above(id, r.lastID)
    ensures r.startedAfterID == report.startedAfterID && r.complete == report.complete
    ensures status != AdapterError ==> r.scanned == report.scanned + |PassedRows(old(adapter.rows), report.lastID, r.lastID)|
    ensures r.rotated == report.rotated + if mutate then |RewrittenRows(job, old(adapter.rows), report.lastID, r.lastID, FailedRows(r.failures))| else 0
    // one poll per page and one per row
    ensures status == Interrupted ==> ctx.remaining == 0 && old(ctx.remaining) <= 2 * (r.scanned - report.scanned) + 1
    ensures status == Finished ==> old(ctx.remaining) - ctx.remaining <= 2 * (r.scanned - report.scanned) + 1
    ensures status == Finished && pageSize == 1 ==> old(ctx.remaining) - ctx.remaining == 2 * (r.scanned - report.scanned) + 1
    ensures adapter.reliable ==> status != AdapterError
  {
    hide RotatedData, RowClean, IsPage, ScanState, NextVisible, PassedRows, RewrittenRows, FailedRows, VisibleAbove, Job.Valid, Tallied, Above;
    r := report;
    ghost var before, a, polls := adapter.rows, report.lastID, ctx.remaining;
    ScanStarts(job, before, mutate, report);
    TallyStarts(job, before, mutate, report);
    ghost var pages := 0;
    while true
      invariant adapter.rows.Keys == before.Keys
      invariant ScanState(job, before, adapter.rows, a, mutate, r)
      invariant Tallied(job, before, a, mutate, report, r)
      invariant polls == ctx.remaining + pages + (r.scanned - report.scanned) && pages <= r.scanned - report.scanned
      invariant pageSize == 1 ==> pages == r.scanned - report.scanned
      decreases VisibleAbove(before, r.lastID)
    {
      TallyMeans(job, before, a, mutate, report, r);
      var cancelled := ctx.Err();
      if cancelled { return Interrupted, r; }
      ghost var last := r.lastID;
      var ok, ids, recs := adapter.FindMany(r.lastID, pageSize);
      if !ok { return AdapterError, r; }
      pages := pages + 1;
      SameVisible(job, before, adapter.rows, a, mutate, r);
      if |ids| == 0 {
        ShortPageIsLast(before, last, ids, pageSize);
        return Finished, r;
      }
      PageStays(before, adapter.rows, last, ids, pageSize);
      var stopped;
      stopped, r := ScanPage(ctx, adapter, job, ids, recs, mutate, r, report, before, a, last, pageSize);
      if stopped != Some(AdapterError) { TallyMeans(job, before, a, mutate, report, r); }
      if stopped.Some? { return stopped.value, r; }
      CursorMoved(before, last, ids, pageSize);
      if |ids| < pageSize {
        ShortPageIsLast(before, last, ids, pageSize);
        return Finished, r;
      }
    }
  }

  /** One row of the scan: inspect it, rewrite it or record why not, move on. */
  method ScanStep(adapter: Adapter, job: Job, id: string, row: Data, mutate: bool, report: Report, ghost before: Table, ghost a: string)
    returns (ok: bool, r: Report)
    requires job.Valid() && "" !in before
    requires ScanState(job, before, adapter.rows, a, mutate, report) && NextVisible(before, report.lastID, id)
    requires Visible(adapter.rows, id) && adapter.rows[id] == before[id] && row == before[id].data
    modifies adapter
    ensures adapter.rows.Keys == old(adapter.rows).Keys
    ensures adapter.reliable ==> ok
    ensures r.startedAfterID == report.startedAfterID && r.complete == report.complete
    ensures ScanState(job, before, adapter.rows, a, mutate, r)
    ensures r.lastID == if ok then id else report.lastID
    ensures ok ==> r.scanned == report.scanned + 1
    ensures ok ==> |PassedRows(before, a, r.lastID)| == |PassedRows(before, a, report.lastID)| + 1
    ensures ok && mutate ==> r.rotated - report.rotated == |RewrittenRows(job, before, a, r.lastID, FailedRows(r.failures))|
                                                          - |RewrittenRows(job, before, a, report.lastID, FailedRows(report.failures))|
    ensures !(ok && mutate) ==> r.rotated == report.rotated
    ensures !ok ==> r.failures == report.failures
  {
    hide RotatedData, RowClean, ScanState, NextVisible, PassedRows, RewrittenRows, FailedRows, VisibleAbove, HoldsOldKey, Job.Valid;
    var update, rowFailures := ScanRow(job, id, row, mutate);
    r := report.(scanned := report.scanned + 1, failures := report.failures + rowFailures);
    ok := true;
    if |rowFailures| == 0 {
      assert report.failures + rowFailures == report.failures;
      if mutate && |update| > 0 {
        ok := adapter.Update(id, update);
        if !ok {
          StateIgnoresCounts(job, before, adapter.rows, a, mutate, report, r);
          return;
        }
        r := r.(rotated := r.rotated + 1);
      } else if mutate {
        assert row + update == row;
      }
    }
    r := r.(lastID := id);
    ScanAdvances(job, before, old(adapter.rows), a, mutate, report, id, rowFailures, adapter.rows, r);
    CursorBounds(job, before, old(adapter.rows), a, mutate, report);
    CountsGrow(job, before, a, report.lastID, id, FailedRows(report.failures), FailedRows(r.failures));
    FailedNone(rowFailures, r.failures, report.failures);
  }

  lemma FailedNone(fails: seq<Failure>, all: seq<Failure>, earlier: seq<Failure>)
    requires all == earlier + fails
    ensures fails == [] ==> FailedRows(all) == FailedRows(earlier)
  {
    if fails == [] { assert all == earlier; }
  }

  lemma StateIgnoresCounts(job: Job, before: Table, rows: Table, a: string, mutate: bool, r: Report, r': Report)
    requires ScanState(job, before, rows, a, mutate, r) && r'.lastID == r.lastID && r'.failures == r.failures
    ensures ScanState(job, before, rows, a, mutate, r')
  {
  }

  lemma ScanStarts(job: Job, before: Table, mutate: bool, r: Report)
    requires r.failures == []
    ensures ScanState(job, before, before, r.lastID, mutate, r)
    ensures PassedRows(before, r.lastID, r.lastID) == {}
    ensures RewrittenRows(job, before, r.lastID, r.lastID, FailedRows(r.failures)) == {}
  {
  }

  lemma PageStays(before: Table, rows: Table, last: string, ids: seq<string>, limit: nat)
    requires IsPage(ids, VisibleAbove(before, last), limit)
    requires forall id :: Visible(before, id) && Above(id, last) ==> id in rows && rows[id] == before[id]
    ensures forall i :: 0 <= i < |ids| ==> ids[i] in before && ids[i] in rows && rows[ids[i]] == before[ids[i]]
  {
    forall i | 0 <= i < |ids| ensures ids[i] in before && ids[i] in rows && rows[ids[i]] == before[ids[i]] {
      assert ids[i] in ids;
    }
  }

  lemma NextIsUntouched(job: Job, before: Table, rows: Table, a: string, mutate: bool, r: Report, next: string)
    requires ScanState(job, before, rows, a, mutate, r) && NextVisible(before, r.lastID, next)
    ensures Visible(rows, next) && rows[next] == before[next]
  {
    SameVisible(job, before, rows, a, mutate, r);
  }

  lemma CursorBounds(job: Job, before: Table, rows: Table, a: string, mutate: bool, r: Report)
    requires ScanState(job, before, rows, a, mutate, r) && "" !in before
    ensures r.lastID == a || (Above(r.lastID, a) && Visible(before, r.lastID) && r.lastID != "")
  {
  }

  lemma CursorMoved(rows: Table, last: string, ids: seq<string>, limit: nat)
    requires "" !in rows && IsPage(ids, VisibleAbove(rows, last), limit) && ids != []
    ensures VisibleAbove(rows, ids[|ids| - 1]) < VisibleAbove(rows, last)
  {
    assert ids[|ids| - 1] in ids;
    CursorAdvances(rows, last, ids[|ids| - 1]);
  }

  // ---- the rotation ------------------------------------------------------------------

  /** Where a rotation stopped. Only Complete sets the report's Complete flag. */
  datatype Status =
    | Complete
    | Refused
    | PreflightStopped(scan: ScanStatus)
    | Dirty
    | MutationStopped(scan: ScanStatus)
    | MutationFailed

  /** Every visible row past a is rotated, every other row is as it was. */
  ghost predicate AllRotated(job: Job, before: Table, after: Table, a: string) {
    && before.Keys == after.Keys
    && (forall id :: id in before ==>
          if before[id].visible && Above(id, a)
          then after[id].visible && RotatedData(job, before[id].data, after[id].data)
          else after[id] == before[id])
  }

  ghost predicate AllClean(job: Job, rows: Table, a: string) {
    forall id :: Visible(rows, id) && Above(id, a) ==> RowClean(job, rows[id].data)
  }

  /** What a finished preflight reports: every field in the way of a visible row past
      a, with the stage it fails at, and nothing else. */
  ghost predicate DirtyReport(job: Job, rows: Table, a: string, failures: seq<Failure>) {
    && (forall id, f :: Visible(rows, id) && Above(id, a) && f in job.fields && job.Check(f, rows[id].data).Fail? ==>
          Failure(id, f.dbName, job.Check(f, rows[id].data).stage) in failures)
    && (forall x :: x in failures ==> Visible(rows, x.rowID) && Above(x.rowID, a) && Genuine(job, rows[x.rowID].data, false, x))
  }

  predicate HasUnique(fields: seq<Field>) {
    exists f | f in fields :: f.unique
  }

  function JobOf(kp: KeyProvider, fields: seq<Field>, oldKey: string, newKey: string): Job {
    Job(kp, fields, oldKey, newKey, if HasUnique(fields) then BlindIndexKeyID(kp, oldKey).0 else "")
  }

  /** The configuration a rotation accepts. */
  predicate Accepted(job: Job, pageSize: nat) {
    && 1 <= pageSize <= 200
    && (forall f | f in job.fields :: job.oldKey == job.newKey || f.KeyID() != job.oldKey)
    && (HasUnique(job.fields) ==> BlindIndexKeyID(job.kp, job.oldKey).1)
  }

  method RotateEncryptionKey(ctx: Context, adapter: Adapter, kp: KeyProvider, fields: seq<Field>, oldKey: string, newKey: string,
                             afterID: string, pageSizeOption: nat)
    returns (status: Status, report: Report)
    requires kp.Lawful() && Apart(fields) && "" !in adapter.rows
    modifies ctx, adapter
    ensures var job := JobOf(kp, fields, oldKey, newKey);
            var pageSize := if pageSizeOption == 0 then 100 else pageSizeOption;
            && (status == Refused <==> fields != [] && !Accepted(job, pageSize))
            && (report.complete <==> status == Complete)
            // nothing is written before the whole range has been inspected and found clean
            && (status.PreflightStopped? || status == Dirty || status == Refused ==> adapter.rows == old(adapter.rows))
            && (status == Dirty ==> !AllClean(job, old(adapter.rows), afterID) && report.lastID == afterID && report.rotated == 0 && report.failures != [])
            && (status == Dirty ==> DirtyReport(job, old(adapter.rows), afterID, report.failures))
            && (status == Complete || status.MutationStopped? || status == MutationFailed ==> fields == [] || AllClean(job, old(adapter.rows), afterID))
            // what the mutating scan leaves
            && (status == Complete ==> AllRotated(job, old(adapter.rows), adapter.rows, afterID) && report.failures == [])
            && (status.MutationStopped? || status == MutationFailed ==>
                  RotatedUpTo(job, old(adapter.rows), adapter.rows, afterID, report.lastID, FailedRows(report.failures))
                  && (forall x :: x in report.failures ==>
                        x.stage == Encrypt && Visible(old(adapter.rows), x.rowID) && Above(x.rowID, afterID)
                        && Passed(x.rowID, afterID, report.lastID) && HoldsOldKey(job, old(adapter.rows)[x.rowID].data)
                        && Genuine(job, old(adapter.rows)[x.rowID].data, true, x)))
            && (status == MutationFailed ==> exists x :: x in report.failures)
            // the cursor an interrupted run reports
            && (status.PreflightStopped? || status.MutationStopped? ==>
                  report.lastID == afterID || (Above(report.lastID, afterID) && Visible(old(adapter.rows), report.lastID)))
            // when it is interrupted
            && (adapter.reliable && fields != [] && Accepted(job, pageSize) && pageSize == 1
                && old(ctx.remaining) <= 2 * |VisibleAbove(old(adapter.rows), afterID)|
                ==> status == PreflightStopped(Interrupted) && old(ctx.remaining) <= 2 * |PassedRows(old(adapter.rows), afterID, report.lastID)| + 1)
            && (adapter.reliable && old(ctx.remaining) > 4 * |VisibleAbove(old(adapter.rows), afterID)| + 2
                ==> !status.PreflightStopped? && !status.MutationStopped?)
  {
    hide RotatedData, RowClean, FailedRows, KeyProvider.Lawful, Apart, VisibleAbove, PassedRows, RewrittenRows, Reported, DirtyReport, Genuine;
    report := Report(afterID, afterID, 0, 0, [], false);
    ghost var before := adapter.rows;
    ghost var job := JobOf(kp, fields, oldKey, newKey);
    if |fields| == 0 {
      NoFields(job, before, afterID);
      return Complete, report.(complete := true);
    }
    var pageSize := if pageSizeOption == 0 then 100 else pageSizeOption;
    if pageSize < 1 || pageSize > MAX_LIMIT { return Refused, report; }
    var i := 0;
    while i < |fields|
      invariant 0 <= i <= |fields|
      invariant forall j :: 0 <= j < i ==> oldKey == newKey || fields[j].KeyID() != oldKey
    {
      if oldKey != newKey && fields[i].KeyID() == oldKey {
        assert fields[i] in fields;
        return Refused, report;
      }
      i := i + 1;
    }
    if HasUnique(fields) && !BlindIndexKeyID(kp, oldKey).1 { return Refused, report; }
    var j := JobOf(kp, fields, oldKey, newKey);

    // preflight the entire range before the first write
    var scan, preflight := ScanEncryptionRotation(ctx, adapter, j, pageSize, false, report);
    NothingWritten(j, before, adapter.rows, afterID, preflight);
    PassedWithin(before, afterID, preflight.lastID);
    if scan != Finished { return PreflightStopped(scan), preflight; }
    PassedAll(before, afterID, preflight.lastID);
    if |preflight.failures| > 0 {
      SomeRowDirty(j, before, adapter.rows, afterID, preflight);
      AllReported(j, before, adapter.rows, afterID, preflight);
      return Dirty, preflight.(lastID := afterID, rotated := 0);
    }
    RangeIsClean(j, before, adapter.rows, afterID, preflight);

    // start the mutating scan from the caller's cursor again
    scan, report := ScanEncryptionRotation(ctx, adapter, j, pageSize, true, report);
    PassedWithin(before, afterID, report.lastID);
    OnlyEncryptFails(j, before, adapter.rows, afterID, report);
    if scan != Finished { return MutationStopped(scan), report; }
    if |report.failures| > 0 {
      assert report.failures[0] in report.failures;
      return MutationFailed, report;
    }
    RangeIsRotated(j, before, adapter.rows, afterID, report);
    status, report := Complete, report.(complete := true);
  }

  lemma NoFields(job: Job, rows: Table, a: string)
    requires job.fields == []
    ensures AllRotated(job, rows, rows, a)
  {
  }

  lemma NothingWritten(job: Job, before: Table, after: Table, a: string, r: Report)
    requires ScanState(job, before, after, a, false, r)
    ensures after == before
  {
    assert forall id :: id in before ==> after[id] == before[id];
  }

  lemma PassedWithin(rows: Table, a: string, b: string)
    ensures |PassedRows(rows, a, b)| <= |VisibleAbove(rows, a)|
  {
    SubsetSize(PassedRows(rows, a, b), VisibleAbove(rows, a));
  }

  lemma PassedAll(rows: Table, a: string, b: string)
    requires forall id :: Visible(rows, id) ==> !Above(id, b)
    ensures PassedRows(rows, a, b) == VisibleAbove(rows, a)
  {
  }

  lemma SubsetSize(s: set<string>, t: set<string>)
    requires s <= t
    ensures |s| <= |t|
  {
    assert |t| == |s| + |t - s| by { assert t == s + (t - s); }
  }

  lemma SomeRowDirty(job: Job, before: Table, after: Table, a: string, r: Report)
    requires ScanState(job, before, after, a, false, r) && r.failures != []
    ensures !AllClean(job, before, a)
  {
    var x := r.failures[0];
    assert x in r.failures && x.rowID in FailedRows(r.failures);
  }

  lemma AllReported(job: Job, before: Table, after: Table, a: string, r: Report)
    requires ScanState(job, before, after, a, false, r)
    requires forall id :: Visible(before, id) ==> !Above(id, r.lastID)
    ensures DirtyReport(job, before, a, r.failures)
  {
    hide Job.Check, Genuine, RotatedUpTo, RowClean;
  }

  lemma RangeIsClean(job: Job, before: Table, after: Table, a: string, r: Report)
    requires ScanState(job, before, after, a, false, r) && r.failures == []
    requires forall id :: Visible(before, id) ==> !Above(id, r.lastID)
    ensures AllClean(job, before, a)
  {
  }

  lemma OnlyEncryptFails(job: Job, before: Table, after: Table, a: string, r: Report)
    requires ScanState(job, before, after, a, true, r) && AllClean(job, before, a)
    ensures RotatedUpTo(job, before, after, a, r.lastID, FailedRows(r.failures))
    ensures r.lastID == a || (Above(r.lastID, a) && Visible(before, r.lastID))
    ensures forall x :: x in r.failures ==> x.stage == Encrypt && Visible(before, x.rowID) && Passed(x.rowID, a, r.lastID)
    ensures forall x :: x in r.failures ==> HoldsOldKey(job, before[x.rowID].data) && Genuine(job, before[x.rowID].data, true, x)
  {
    hide Genuine;
    forall x | x in r.failures
      ensures x.stage == Encrypt && Visible(before, x.rowID) && Passed(x.rowID, a, r.lastID) && HoldsOldKey(job, before[x.rowID].data)
    {
      assert x.rowID in FailedRows(r.failures);
    }
  }

  lemma RangeIsRotated(job: Job, before: Table, after: Table, a: string, r: Report)
    requires ScanState(job, before, after, a, true, r) && r.failures == []
    requires forall id :: Visible(before, id) ==> !Above(id, r.lastID)
    ensures AllRotated(job, before, after, a)
  {
  }
}
