/** Field-level encryption: what is stored, and what a reader gets back from a table that mixes
    ciphertext with rows written before encryption was switched on. */
module Crypto {
  import opened Common
  import opened Schema
  import Transactions

  /** A Fernet key, kept abstract: encryption draws a nonce, decryption rejects what is not a token. */
  datatype Fernet = Fernet(encrypt: (string, nat) -> string, decrypt: string -> Option<string>)

  ghost predicate Lawful(f: Fernet) {
    forall text, nonce :: f.decrypt(f.encrypt(text, nonce)) == Some(text)
  }

  function EncryptField(f: Option<Fernet>, value: Option<string>, nonce: nat): (r: Option<string>)
    ensures r.Some? <==> value.Some?
  {
    if f == None || value == None then value else Some(f.value.encrypt(value.value, nonce))
  }

  function DecryptField(f: Option<Fernet>, value: Option<string>): (r: Option<string>)
    ensures r.Some? <==> value.Some?
  {
    if f == None || value == None then value
    else
      var text := f.value.decrypt(value.value);
      if text == None then value else text
  }

  /** What a column may hold for the plaintext `plain`: a token, or the text itself as a legacy row. */
  ghost predicate StoredField(f: Option<Fernet>, plain: Option<string>, stored: Option<string>) {
    || (exists nonce :: stored == EncryptField(f, plain, nonce))
    || (stored == plain && (f.Some? && plain.Some? ==> f.value.decrypt(plain.value) == None))
  }

  lemma StoredFieldReadsBack(f: Option<Fernet>, plain: Option<string>, stored: Option<string>)
    requires f.Some? ==> Lawful(f.value)
    requires StoredField(f, plain, stored)
    ensures DecryptField(f, stored) == plain
  {
    if nonce :| stored == EncryptField(f, plain, nonce) {
      if f.Some? && plain.Some? {
        assert f.value.decrypt(f.value.encrypt(plain.value, nonce)) == Some(plain.value);
      }
    }
  }

  function DecryptAlert(f: Option<Fernet>, a: Alert): Alert {
    a.(title := DecryptField(f, Some(a.title)).value,
       sourceIp := DecryptField(f, a.sourceIp),
       description := DecryptField(f, a.description))
  }

  ghost predicate StoredAlert(f: Option<Fernet>, plain: Alert, stored: Alert) {
    && StoredField(f, Some(plain.title), Some(stored.title))
    && StoredField(f, plain.sourceIp, stored.sourceIp)
    && StoredField(f, plain.description, stored.description)
    && stored == plain.(title := stored.title, sourceIp := stored.sourceIp, description := stored.description)
  }

  /** Decrypting undoes storage, for encrypted and legacy rows alike. */
  lemma StoredAlertReadsBack(f: Option<Fernet>, plain: Alert, stored: Alert)
    requires f.Some? ==> Lawful(f.value)
    requires StoredAlert(f, plain, stored)
    ensures DecryptAlert(f, stored) == plain
  {
    StoredFieldReadsBack(f, Some(plain.title), Some(stored.title));
    StoredFieldReadsBack(f, plain.sourceIp, stored.sourceIp);
    StoredFieldReadsBack(f, plain.description, stored.description);
  }

  /** `_ingest_values`: the INSERT parameters, the three sensitive ones encrypted. */
  function Sealed(f: Option<Fernet>, n: Transactions.NewAlert, nonces: (nat, nat, nat)): Transactions.NewAlert {
    n.(title := EncryptField(f, Some(n.title), nonces.0).value,
       sourceIp := EncryptField(f, n.sourceIp, nonces.1),
       description := EncryptField(f, n.description, nonces.2))
  }

  /** The row an ingest stores decrypts to the alert that was sent. */
  lemma SealedReadsBack(f: Option<Fernet>, n: Transactions.NewAlert, nonces: (nat, nat, nat), id: nat, now: Micros)
    requires f.Some? ==> Lawful(f.value)
    ensures StoredAlert(f, Transactions.OpenAlert(id, n, now), Transactions.OpenAlert(id, Sealed(f, n, nonces), now))
    ensures DecryptAlert(f, Transactions.OpenAlert(id, Sealed(f, n, nonces), now)) == Transactions.OpenAlert(id, n, now)
  {
    StoredAlertReadsBack(f, Transactions.OpenAlert(id, n, now), Transactions.OpenAlert(id, Sealed(f, n, nonces), now));
  }

  // ---------------------------------------------------------------- the row dict, updated in place

  const ENCRYPTED_ALERT_FIELDS: seq<string> := ["title", "source_ip", "description"]

  type Fields = map<string, Option<string>>

  /** The sensitive fields that are present decrypted, every other field as it was. */
  function Decrypted(f: Option<Fernet>, fields: Fields): Fields {
    map k | k in fields :: if k in ENCRYPTED_ALERT_FIELDS then DecryptField(f, fields[k]) else fields[k]
  }

  /** The text columns of SELECT *. */
  function TextFields(a: Alert): Fields {
    map["title" := Some(a.title), "category" := Some(a.category), "source" := a.source,
        "source_ip" := a.sourceIp, "description" := a.description, "assigned_to" := a.assignedTo,
        "workflow_run_id" := a.workflowRunId, "run_metadata" := a.runMetadata]
  }

  /** The fields decrypted by name are the fields of the decrypted alert. */
  lemma DecryptsByName(f: Option<Fernet>, a: Alert)
    ensures Decrypted(f, TextFields(a)) == TextFields(DecryptAlert(f, a))
  {
    NotSensitive("category");
    NotSensitive("source");
    NotSensitive("assigned_to");
    NotSensitive("workflow_run_id");
    NotSensitive("run_metadata");
    assert ENCRYPTED_ALERT_FIELDS[0] == "title" && ENCRYPTED_ALERT_FIELDS[1] == "source_ip"
           && ENCRYPTED_ALERT_FIELDS[2] == "description";
  }

  lemma NotSensitive(k: string)
    requires |k| !in {5, 9, 11} || (|k| == 11 && k[0] == 'a')
    ensures k !in ENCRYPTED_ALERT_FIELDS
  {
    assert |"title"| == 5 && |"source_ip"| == 9 && |"description"| == 11 && "description"[0] == 'd';
  }

  /** A result row as the cursor hands it over: column name to text. */
  class ResultRow {
    var fields: Fields

    constructor (fields: Fields)
      ensures this.fields == fields
    {
      this.fields := fields;
    }

    method Decrypt(f: Option<Fernet>)
      modifies this
      ensures fields == Decrypted(f, old(fields))
    {
      for i := 0 to |ENCRYPTED_ALERT_FIELDS|
        invariant fields.Keys == old(fields.Keys)
        invariant forall k :: k in fields ==>
                    fields[k] == if k in ENCRYPTED_ALERT_FIELDS[..i] then DecryptField(f, old(fields)[k])
                                 else old(fields)[k]
      {
        var field := ENCRYPTED_ALERT_FIELDS[i];
        DistinctFields(i);
        if field in fields {
          fields := fields[field := DecryptField(f, fields[field])];
        }
        assert ENCRYPTED_ALERT_FIELDS[..i + 1] == ENCRYPTED_ALERT_FIELDS[..i] + [field];
      }
      assert ENCRYPTED_ALERT_FIELDS[..3] == ENCRYPTED_ALERT_FIELDS;
    }
  }

  /** No field is decrypted twice. */
  lemma DistinctFields(i: nat)
    requires i < |ENCRYPTED_ALERT_FIELDS|
    ensures ENCRYPTED_ALERT_FIELDS[i] !in ENCRYPTED_ALERT_FIELDS[..i]
  {
    assert "title" != "source_ip" by { assert |"title"| != |"source_ip"|; }
    assert "title" != "description" by { assert |"title"| != |"description"|; }
    assert "source_ip" != "description" by { assert |"source_ip"| != |"description"|; }
  }
}
