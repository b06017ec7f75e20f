/** A rotation in terms of what the columns hold: which fields stand in its way and at
    which stage, and the digests a finished one leaves. */
module RotationDigests {
  import opened Wrappers
  import opened Ordering
  import opened Rotation
  import opened RotationTheorems

  /** The column holds the envelope e. */
  predicate HoldsEnvelope(kp: KeyProvider, data: Data, col: string, e: string) {
    col in data && data[col].Text? && |data[col].s| >= 4 && data[col].s[..4] == "enc:" && kp.decode(data[col].s[4..]) == Some(e)
  }

  /** The column begins as an envelope does but does not decode. */
  predicate HoldsGarbage(kp: KeyProvider, data: Data, col: string) {
    col in data && data[col].Text? && |data[col].s| >= 4 && data[col].s[..4] == "enc:" && kp.decode(data[col].s[4..]) == None
  }

  /** The column's text, as string or bytes; a missing or other value reads as empty. */
  predicate ReadsText(data: Data, col: string, text: string) {
    if col in data && (data[col].Text? || data[col].Blob?) then data[col].s == text else text == ""
  }

  /** The digest column beside f is the digest of p under this key. */
  predicate DigestIs(kp: KeyProvider, data: Data, f: Field, indexKey: string, p: string) {
    kp.hmac(indexKey, p).Some? && ReadsText(data, f.dbName + "_hmac", kp.encode(kp.hmac(indexKey, p).value))
  }

  // ---- what is done about one field ------------------------------------------------------

  lemma EnvelopeView(kp: KeyProvider, data: Data, col: string)
    requires col in data
    ensures HoldsGarbage(kp, data, col) <==> ViewOf(kp, data[col]).Malformed?
    ensures forall e :: HoldsEnvelope(kp, data, col, e) ==> ViewOf(kp, data[col]) == Sealed(kp.keyIDOf(e), kp.decrypt(e))
    ensures ViewOf(kp, data[col]).Sealed? ==> exists e :: HoldsEnvelope(kp, data, col, e)
  {
    assert |ENC_STORAGE_PREFIX| == 4;
    if data[col].Text? && ENC_STORAGE_PREFIX <= data[col].s {
      assert data[col].s[..4] == "enc:";
      if kp.decode(data[col].s[4..]).Some? { assert HoldsEnvelope(kp, data, col, kp.decode(data[col].s[4..]).value); }
    }
    if data[col].Text? && |data[col].s| >= 4 && data[col].s[..4] == "enc:" { assert ENC_STORAGE_PREFIX <= data[col].s; }
  }

  /** When a field is reported, at which stage, and when it is resealed. */
  lemma CheckIs(job: Job, f: Field, data: Data)
    ensures job.Check(f, data) == Fail(DecodeEnvelope) <==> HoldsGarbage(job.kp, data, f.dbName)
    ensures job.Check(f, data) == Fail(ReadKeyID) <==> exists e :: HoldsEnvelope(job.kp, data, f.dbName, e) && job.kp.keyIDOf(e) == None
    ensures job.Check(f, data) == Fail(Decrypt) <==>
              exists e :: HoldsEnvelope(job.kp, data, f.dbName, e) && job.kp.keyIDOf(e) != None
                && (job.kp.keyIDOf(e) == Some(job.oldKey) || f.unique) && job.kp.decrypt(e) == None
    ensures job.Check(f, data) == Fail(BlindIndex) <==>
              f.unique
              && (exists e, p :: HoldsEnvelope(job.kp, data, f.dbName, e) && job.kp.keyIDOf(e) != None && job.kp.decrypt(e) == Some(p)
                    && !DigestIs(job.kp, data, f, job.indexKey, p))
    ensures forall p :: job.Check(f, data) == Rotate(p) <==>
              && (exists e :: HoldsEnvelope(job.kp, data, f.dbName, e) && job.kp.keyIDOf(e) == Some(job.oldKey) && job.kp.decrypt(e) == Some(p))
              && (f.unique ==> DigestIs(job.kp, data, f, job.indexKey, p))
    ensures job.Check(f, data) != Fail(Encrypt)
  {
    hide ViewOf, HoldsEnvelope, HoldsGarbage;
    if f.dbName in data {
      EnvelopeView(job.kp, data, f.dbName);
    } else {
      NoColumn(job.kp, data, f.dbName);
    }
    forall p ensures DigestMatches(job.kp, f, data, job.indexKey, p) <==> DigestIs(job.kp, data, f, job.indexKey, p) {}
  }

  lemma NoColumn(kp: KeyProvider, data: Data, col: string)
    requires col !in data
    ensures !HoldsGarbage(kp, data, col) && forall e :: !HoldsEnvelope(kp, data, col, e)
  {
  }

  /** A row stands in nobody's way exactly when every envelope in it decodes and names
      its key, every one a rotation has to open opens, and every unique field's digest
      is the digest of what it seals under the index key. */
  lemma CleanIff(job: Job, data: Data)
    ensures RowClean(job, data) <==>
            forall f :: f in job.fields ==>
              && !HoldsGarbage(job.kp, data, f.dbName)
              && forall e :: HoldsEnvelope(job.kp, data, f.dbName, e) ==>
                   && job.kp.keyIDOf(e) != None
                   && (f.unique || job.kp.keyIDOf(e) == Some(job.oldKey) ==> job.kp.decrypt(e) != None)
                   && (f.unique ==> exists p :: job.kp.decrypt(e) == Some(p) && DigestIs(job.kp, data, f, job.indexKey, p))
  {
    hide HoldsEnvelope, HoldsGarbage, DigestIs, Job.Check;
    forall f ensures !job.Check(f, data).Fail? <==> NotInTheWay(job, f, data) {
      FieldCleanIff(job, f, data);
    }
  }

  ghost predicate NotInTheWay(job: Job, f: Field, data: Data) {
    && !HoldsGarbage(job.kp, data, f.dbName)
    && forall e :: HoldsEnvelope(job.kp, data, f.dbName, e) ==>
         && job.kp.keyIDOf(e) != None
         && (f.unique || job.kp.keyIDOf(e) == Some(job.oldKey) ==> job.kp.decrypt(e) != None)
         && (f.unique ==> exists p :: job.kp.decrypt(e) == Some(p) && DigestIs(job.kp, data, f, job.indexKey, p))
  }

  lemma OneEnvelope(kp: KeyProvider, data: Data, col: string, e: string, e': string)
    requires HoldsEnvelope(kp, data, col, e) && HoldsEnvelope(kp, data, col, e')
    ensures e == e'
  {
  }

  lemma FieldCleanIff(job: Job, f: Field, data: Data)
    ensures !job.Check(f, data).Fail? <==> NotInTheWay(job, f, data)
  {
    hide HoldsEnvelope, HoldsGarbage, DigestIs, Job.Check;
    CheckIs(job, f, data);
    forall e, e' | HoldsEnvelope(job.kp, data, f.dbName, e) && HoldsEnvelope(job.kp, data, f.dbName, e') ensures e == e' {
      OneEnvelope(job.kp, data, f.dbName, e, e');
    }
    match job.Check(f, data) {
      case Fail(stage) =>
        if stage == BlindIndex {
          var e, p :| HoldsEnvelope(job.kp, data, f.dbName, e) && job.kp.decrypt(e) == Some(p) && !DigestIs(job.kp, data, f, job.indexKey, p);
          assert forall q :: job.kp.decrypt(e) == Some(q) ==> q == p;
        }
        assert job.Check(f, data) == Fail(stage) && stage in {DecodeEnvelope, ReadKeyID, Decrypt, BlindIndex, Encrypt};
      case _ =>
        forall e | HoldsEnvelope(job.kp, data, f.dbName, e) && f.unique
          ensures exists p :: job.kp.decrypt(e) == Some(p) && DigestIs(job.kp, data, f, job.indexKey, p)
        {
          assert job.kp.decrypt(e) == Some(job.kp.decrypt(e).value);
        }
    }
  }

  // ---- what a write leaves ------------------------------------------------------------------

  /** A written value is an envelope of the field's own key, and beside a unique one stands
      its digest under the provider's index key, or under the field's key when the
      provider has none. */
  lemma WriteSeals(kp: KeyProvider, f: Field, before: Data, after: Data)
    requires EncryptedField(kp, f, before, after) && f.dbName in before && !before[f.dbName].Null? && before[f.dbName].Sprint() != ""
    ensures exists e :: HoldsEnvelope(kp, after, f.dbName, e)
              && kp.keyIDOf(e) == Some(f.KeyID()) && kp.decrypt(e) == Some(before[f.dbName].Sprint())
    ensures f.unique ==>
              DigestIs(kp, after, f, if kp.blindIndexKey.Some? && kp.blindIndexKey.value != "" then kp.blindIndexKey.value else f.KeyID(),
                       before[f.dbName].Sprint())
  {
    hide ViewOf, HoldsEnvelope, IsEnvelope;
    EnvelopeView(kp, after, f.dbName);
  }

  /** Text written and read back is that text, and the field's key is "default" unless the
      model names one. */
  lemma TextSurvives(kp: KeyProvider, fields: seq<Field>, written: Data, stored: Data, read: Data, f: Field, text: string)
    requires Apart(fields) && f in fields && EncryptedField(kp, f, written, stored) && DecryptedField(kp, f, stored, read)
    requires f.dbName in written && written[f.dbName] == Text(text)
    ensures f.dbName in read && read[f.dbName] == Text(text)
    ensures text != "" ==> exists e :: HoldsEnvelope(kp, stored, f.dbName, e) && kp.decrypt(e) == Some(text)
                             && kp.keyIDOf(e) == Some(if f.encryptionKey == "" then "default" else f.encryptionKey)
  {
    hide ViewOf, IsEnvelope, HoldsEnvelope, EncryptedField, DecryptedField;
    WriteThenRead(kp, fields, written, stored, f);
    if text != "" { WriteSeals(kp, f, written, stored); }
  }

  // ---- whole runs ----------------------------------------------------------------------------

  /** Where a rotation was Complete, the digest beside every unique sealed field of a
      visible row past its start is the one the provider's index key gives of the
      sealed text: in the row it found, and in the row it left. */
  lemma CompleteMeansDigests(kp: KeyProvider, fields: seq<Field>, oldKey: string, newKey: string, pageSize: nat,
                             before: Table, after: Table, a: string, id: string, f: Field, e: string)
    requires kp.Lawful() && Apart(fields) && f in fields && f.unique
    requires var job := JobOf(kp, fields, oldKey, newKey);
             Accepted(job, pageSize) && AllClean(job, before, a) && AllRotated(job, before, after, a)
    requires Visible(before, id) && Above(id, a) && HoldsEnvelope(kp, before[id].data, f.dbName, e)
    ensures kp.blindIndexKey.Some? && kp.blindIndexKey.value != "" && id in after
    ensures exists p :: kp.decrypt(e) == Some(p) && DigestIs(kp, before[id].data, f, kp.blindIndexKey.value, p)
              && DigestIs(kp, after[id].data, f, kp.blindIndexKey.value, p)
  {
    hide HoldsEnvelope, KeyProvider.Lawful, Apart, RotatedData;
    var job := JobOf(kp, fields, oldKey, newKey);
    IndexKeyIs(kp, fields, oldKey, newKey, pageSize, f);
    assert RowClean(job, before[id].data);
    CleanIff(job, before[id].data);
    var p :| kp.decrypt(e) == Some(p) && DigestIs(kp, before[id].data, f, job.indexKey, p);
    RotationKeepsPlaintexts(job, before[id].data, after[id].data, f);
  }

  lemma IndexKeyIs(kp: KeyProvider, fields: seq<Field>, oldKey: string, newKey: string, pageSize: nat, f: Field)
    requires f in fields && f.unique && Accepted(JobOf(kp, fields, oldKey, newKey), pageSize)
    ensures kp.blindIndexKey == Some(JobOf(kp, fields, oldKey, newKey).indexKey) && kp.blindIndexKey.value != ""
  {
  }

  /** A stale digest is reported: a preflight that finishes over a row whose unique
      field's digest is not the one of its text under the index key is Dirty, and
      lists that row and field. */
  lemma StaleDigestReported(kp: KeyProvider, fields: seq<Field>, oldKey: string, newKey: string, pageSize: nat,
                            rows: Table, a: string, failures: seq<Failure>, id: string, f: Field, e: string, p: string)
    requires f in fields && f.unique && Accepted(JobOf(kp, fields, oldKey, newKey), pageSize)
    requires Visible(rows, id) && Above(id, a)
    requires HoldsEnvelope(kp, rows[id].data, f.dbName, e) && kp.keyIDOf(e) != None && kp.decrypt(e) == Some(p)
    requires kp.blindIndexKey == None || !DigestIs(kp, rows[id].data, f, kp.blindIndexKey.value, p)
    ensures !AllClean(JobOf(kp, fields, oldKey, newKey), rows, a)
    ensures DirtyReport(JobOf(kp, fields, oldKey, newKey), rows, a, failures) ==> Failure(id, f.dbName, BlindIndex) in failures
  {
    hide HoldsEnvelope, DigestIs, Job.Check;
    var job := JobOf(kp, fields, oldKey, newKey);
    IndexKeyIs(kp, fields, oldKey, newKey, pageSize, f);
    CheckIs(job, f, rows[id].data);
    assert job.Check(f, rows[id].data) == Fail(BlindIndex);
  }

  // ---- one table --------------------------------------------------------------------------------

  // a provider that keys its digests, and an address sealed under the old key whose
  // digest was made with the index key or, before there was one, with the old key

  const INDEXED := TWO_KEYS.(blindIndexKey := Some("blind"), hmac := (k: string, p: string) => Some(k + ":" + p))
  const EMAIL := Field("email", true, "new")

  function Address(stale: bool): Table {
    map["r1" := Record(true, map["email" := Text("enc:oa@x"), "email_hmac" := Text(if stale then "old:a@x" else "blind:a@x")])]
  }

  lemma IndexedLawful()
    ensures INDEXED.Lawful() && Apart([EMAIL])
  {
    TwoKeysLawful();
    forall k, p, n | INDEXED.encrypt(k, p, n).Some?
      ensures INDEXED.decrypt(INDEXED.encrypt(k, p, n).value) == Some(p)
      ensures INDEXED.keyIDOf(INDEXED.encrypt(k, p, n).value) == Some(k)
    {
      assert TWO_KEYS.encrypt(k, p, n).Some?;
    }
    assert "email" != EMAIL.Companion() by { assert |EMAIL.Companion()| == 10; }
  }

  lemma AddressFacts(stale: bool)
    ensures HoldsEnvelope(INDEXED, Address(stale)["r1"].data, "email", "oa@x")
    ensures INDEXED.keyIDOf("oa@x") == Some("old") && INDEXED.decrypt("oa@x") == Some("a@x")
    ensures DigestIs(INDEXED, Address(stale)["r1"].data, EMAIL, "blind", "a@x") <==> !stale
    ensures VisibleAbove(Address(stale), "") == {"r1"}
  {
    assert "enc:oa@x"[..4] == "enc:" && "enc:oa@x"[4..] == "oa@x" && "oa@x"[1..] == "a@x";
    assert "email" + "_hmac" == "email_hmac";
    assert "blind" + ":" + "a@x" == "blind:a@x";
    assert "old:a@x"[0] != "blind:a@x"[0];
  }

  /** With the stale digest the rotation is refused in its preflight, reports the field
      and writes nothing; with the digest of the index key it completes. */
  method RotateAddress(stale: bool) returns (status: Status, report: Report, row: Data)
    ensures stale ==> status == Dirty && !report.complete && Failure("r1", "email", BlindIndex) in report.failures && row == Address(stale)["r1"].data
    ensures stale ==> forall x :: x in report.failures ==> x == Failure("r1", "email", BlindIndex)
    ensures !stale ==> status == Complete && report.complete && "email" in row && "email_hmac" in row
                       && ViewOf(INDEXED, row["email"]) == Sealed(Some("new"), Some("a@x")) && row["email_hmac"] == Text("blind:a@x")
  {
    hide HoldsEnvelope, DigestIs, AllClean, AllRotated, DirtyReport, Genuine, KeyProvider.Lawful, Apart, VisibleAbove, PassedRows;
    IndexedLawful();
    AddressFacts(stale);
    AddressCheck(stale);
    var adapter := new Adapter(Address(stale), true);
    var ctx := new Context(10);
    status, report := RotateEncryptionKey(ctx, adapter, INDEXED, [EMAIL], "old", "new", "", 0);
    if stale {
      AddressReported(report.failures);
    } else {
      if x :| x in report.failures { NothingFails(Address(stale)["r1"].data, x); }
      AddressRotated(adapter.rows);
    }
    row := adapter.rows["r1"].data;
  }

  lemma AddressCheck(stale: bool)
    ensures var job := JobOf(INDEXED, [EMAIL], "old", "new");
            && Accepted(job, 100)
            && job.Check(EMAIL, Address(stale)["r1"].data) == (if stale then Fail(BlindIndex) else Rotate("a@x"))
            && (AllClean(job, Address(stale), "") <==> !stale)
  {
    hide HoldsEnvelope, DigestIs, Job.Check;
    var job := JobOf(INDEXED, [EMAIL], "old", "new");
    assert EMAIL in [EMAIL] && HasUnique([EMAIL]);
    AddressFacts(stale);
    CheckIs(job, EMAIL, Address(stale)["r1"].data);
    assert RowClean(job, Address(stale)["r1"].data) <==> !stale;
    assert Visible(Address(stale), "r1");
  }

  lemma NothingFails(row: Data, x: Failure)
    requires x.stage == Encrypt
    ensures !Genuine(JobOf(INDEXED, [EMAIL], "old", "new"), row, true, x)
  {
    hide HoldsEnvelope, HoldsGarbage, DigestIs, Job.Check;
    var job := JobOf(INDEXED, [EMAIL], "old", "new");
    CheckIs(job, EMAIL, row);
    assert forall p, n :: INDEXED.encrypt("new", p, n).Some?;
  }

  lemma AddressReported(failures: seq<Failure>)
    requires DirtyReport(JobOf(INDEXED, [EMAIL], "old", "new"), Address(true), "", failures)
    ensures Failure("r1", "email", BlindIndex) in failures
    ensures forall x :: x in failures ==> x == Failure("r1", "email", BlindIndex)
  {
    hide Job.Check;
    AddressCheck(true);
    assert Visible(Address(true), "r1") && EMAIL in [EMAIL];
    forall x | x in failures ensures x == Failure("r1", "email", BlindIndex) {
      var f :| f in [EMAIL] && f.dbName == x.field && GenuineOf(JobOf(INDEXED, [EMAIL], "old", "new"), f, Address(true)[x.rowID].data, false, x.stage);
    }
  }

  lemma AddressRotated(after: Table)
    requires AllRotated(JobOf(INDEXED, [EMAIL], "old", "new"), Address(false), after, "")
    ensures "r1" in after && "email" in after["r1"].data && "email_hmac" in after["r1"].data
    ensures ViewOf(INDEXED, after["r1"].data["email"]) == Sealed(Some("new"), Some("a@x")) && after["r1"].data["email_hmac"] == Text("blind:a@x")
  {
    hide Job.Check, ViewOf;
    AddressCheck(false);
    var job := JobOf(INDEXED, [EMAIL], "old", "new");
    assert EMAIL in job.fields;
    assert RotatedData(job, Address(false)["r1"].data, after["r1"].data);
    assert !RotatesColumn(job, Address(false)["r1"].data, "email_hmac");
  }
}
