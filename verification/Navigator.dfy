/** The ATT&CK Navigator layer: a fold over the rows of GROUP BY category, severity whose result does not
    depend on the order those rows arrive in. */
module Navigator {
  import opened Common
  import opened Schema
  import opened Grouping

  /** `_CATEGORY_MITRE`. */
  function Technique(category: string): Option<string> {
    if category == "brute_force" then Some("T1110.001")
    else if category == "port_scan" then Some("T1046")
    else if category == "malware" then Some("T1059")
    else if category == "phishing" then Some("T1566")
    else if category == "anomaly" then Some("T1078")
    else None
  }

  /** `_NAVIGATOR_SCORE.get(sev, 25)`. */
  function Score(s: Severity): nat {
    match s
    case Critical => 100
    case High => 75
    case Medium => 50
    case Low => 25
    case Unlisted(_) => 25
  }

  /** An entry of the layer; the comment is its last three parts as text. */
  datatype Entry = Entry(score: nat, category: string, count: nat, severity: Severity)

  type Pair = (string, Severity)

  /** What the layer says about a table with these categories and severities: an entry for each mapped
      category present, scored by its most severe alerts and counting exactly those; and the total over
      all alerts, mapped or not. */
  ghost predicate IsLayer(keys: multiset<Pair>, techniques: map<string, Entry>, total: nat) {
    && total == |keys|
    && (forall k :: k in keys ==> Scored(techniques, k))
    && AllEntriesFor(keys, techniques)
  }

  /** The technique of a mapped category has an entry that scores at least this severity. */
  ghost predicate Scored(techniques: map<string, Entry>, k: Pair) {
    var t := Technique(k.0);
    t.Some? ==> t.value in techniques && Score(k.1) <= techniques[t.value].score
  }

  ghost predicate EntryFor(keys: multiset<Pair>, t: string, e: Entry) {
    && (e.category, e.severity) in keys && Technique(e.category) == Some(t)
    && e.count == keys[(e.category, e.severity)] && e.score == Score(e.severity)
  }

  /** The body of the loop, for a row whose category maps to `tid`. */
  function Improved(techniques: map<string, Entry>, tid: string, row: Row<Pair>): map<string, Entry> {
    var score := Score(row.key.1);
    if tid !in techniques || score > techniques[tid].score
    then techniques[tid := Entry(score, row.key.0, row.count, row.key.1)] else techniques
  }

  ghost predicate AllEntriesFor(keys: multiset<Pair>, techniques: map<string, Entry>) {
    forall t :: t in techniques ==> EntryFor(keys, t, techniques[t])
  }

  ghost predicate AllScored(techniques: map<string, Entry>, rows: seq<Row<Pair>>) {
    forall j :: 0 <= j < |rows| ==> Scored(techniques, rows[j].key)
  }

  lemma ImprovedEntries(keys: multiset<Pair>, techniques: map<string, Entry>, tid: string, row: Row<Pair>)
    requires AllEntriesFor(keys, techniques)
    requires Technique(row.key.0) == Some(tid) && row.count == keys[row.key] > 0
    ensures AllEntriesFor(keys, Improved(techniques, tid, row))
  {
    assert (row.key.0, row.key.1) == row.key;
  }

  lemma ImprovedScores(techniques: map<string, Entry>, tid: string, rows: seq<Row<Pair>>, row: Row<Pair>)
    requires AllScored(techniques, rows) && Technique(row.key.0) == Some(tid)
    ensures AllScored(Improved(techniques, tid, row), rows + [row])
  {
    var after := Improved(techniques, tid, row);
    forall j | 0 <= j < |rows| + 1 ensures Scored(after, (rows + [row])[j].key) {
      if j < |rows| {
        assert Scored(techniques, rows[j].key);
      }
    }
  }

  method NavigatorLayer(rows: seq<Row<Pair>>, ghost keys: multiset<Pair>)
      returns (techniques: map<string, Entry>, total: nat)
    requires IsGroupBy(keys, rows)
    ensures IsLayer(keys, techniques, total) && total == |keys|
  {
    techniques, total := map[], 0;
    for i := 0 to |rows|
      invariant total == SumCounts(rows[..i])
      invariant AllScored(techniques, rows[..i]) && AllEntriesFor(keys, techniques)
    {
      assert rows[..i + 1] == rows[..i] + [rows[i]] && rows[..i + 1][..i] == rows[..i];
      var (category, severity) := rows[i].key;
      var count := rows[i].count;
      total := total + count;
      var tid := Technique(category);
      if tid == None {
        continue;
      }
      ImprovedEntries(keys, techniques, tid.value, rows[i]);
      ImprovedScores(techniques, tid.value, rows[..i], rows[i]);
      var score := Score(severity);
      if tid.value !in techniques || score > techniques[tid.value].score {
        techniques := techniques[tid.value := Entry(score, category, count, severity)];
      }
    }
    assert rows[..|rows|] == rows;
    GroupByTotal(keys, rows);
    ScoredKeys(keys, techniques, rows);
  }

  lemma ScoredKeys(keys: multiset<Pair>, techniques: map<string, Entry>, rows: seq<Row<Pair>>)
    requires IsGroupBy(keys, rows) && AllScored(techniques, rows)
    ensures forall k :: k in keys ==> Scored(techniques, k)
  {
    forall k | k in keys ensures Scored(techniques, k) {
      var i :| 0 <= i < |rows| && rows[i].key == k;
    }
  }

  /** No two categories share a technique. */
  lemma TechniqueInjective(a: string, b: string)
    requires Technique(a).Some? && Technique(a) == Technique(b)
    ensures a == b
  {
    assert |"T1110.001"| == 9 && |"T1046"| == 5 && |"T1059"| == 5 && |"T1566"| == 5 && |"T1078"| == 5;
    assert "T1046"[3..] == "46" && "T1059"[3..] == "59" && "T1566"[3..] == "66" && "T1078"[3..] == "78";
    assert "46"[0] == '4' && "59"[0] == '5' && "66"[0] == '6' && "78"[0] == '7';
  }

  /** The severity CHECK makes scores tell severities apart, so the layer is a function of the table: it
      is the same for every order of the grouped rows. */
  lemma LayerIsUnique(keys: multiset<Pair>, a: map<string, Entry>, b: map<string, Entry>, m: nat, n: nat)
    requires forall k :: k in keys ==> !k.1.Unlisted?
    requires IsLayer(keys, a, m) && IsLayer(keys, b, n)
    ensures a == b && m == n
  {
    forall t | t in a ensures t in b && a[t] == b[t] {
      SameEntry(keys, a, b, m, n, t);
    }
    forall t | t in b ensures t in a {
      SameEntry(keys, b, a, n, m, t);
    }
  }

  lemma SameEntry(keys: multiset<Pair>, a: map<string, Entry>, b: map<string, Entry>, m: nat, n: nat, t: string)
    requires forall k :: k in keys ==> !k.1.Unlisted?
    requires IsLayer(keys, a, m) && IsLayer(keys, b, n) && t in a
    ensures t in b && a[t] == b[t]
  {
    var e := a[t];
    assert EntryFor(keys, t, e) && (e.category, e.severity) in keys;
    assert Scored(b, (e.category, e.severity)) && Scored(a, (e.category, e.severity));
    assert t in b && EntryFor(keys, t, b[t]) && (b[t].category, b[t].severity) in keys;
    TechniqueInjective(e.category, b[t].category);
    assert Score(e.severity) == Score(b[t].severity);
  }

  /** The categories with a technique, as ATT&CK numbers it. */
  const MITRE: set<(string, string)> :=
    {("brute_force", "T1110.001"), ("port_scan", "T1046"), ("malware", "T1059"), ("phishing", "T1566"),
     ("anomaly", "T1078")}

  lemma TechniqueIsMitre(category: string, technique: string)
    ensures Technique(category) == Some(technique) <==> (category, technique) in MITRE
  {
    assert |"brute_force"| == 11 && |"port_scan"| == 9 && |"malware"| == 7 && |"phishing"| == 8;
    assert "anomaly"[0] == 'a' && "malware"[0] == 'm';
  }

  /** The layer has an entry for a technique exactly when an alert of its category is present. */
  lemma EntryIff(keys: multiset<Pair>, techniques: map<string, Entry>, total: nat, technique: string)
    requires IsLayer(keys, techniques, total)
    ensures technique in techniques <==> exists k :: k in keys && (k.0, technique) in MITRE
    ensures technique in techniques ==> (techniques[technique].category, technique) in MITRE
  {
    if technique in techniques {
      var e := techniques[technique];
      assert EntryFor(keys, technique, e);
      TechniqueIsMitre(e.category, technique);
      assert (e.category, e.severity) in keys && (e.category, e.severity).0 == e.category;
    }
    if k :| k in keys && (k.0, technique) in MITRE {
      TechniqueIsMitre(k.0, technique);
      assert Scored(techniques, k);
    }
  }

  /** An entry is about its technique's most severe alerts and counts them, on the legend's scale. */
  lemma LayerShowsWorst(keys: multiset<Pair>, techniques: map<string, Entry>, total: nat, k: Pair)
    requires IsLayer(keys, techniques, total) && k in keys && Technique(k.0).Some?
    ensures Technique(k.0).value in techniques
    ensures var e := techniques[Technique(k.0).value];
            && e.category == k.0 && e.count == keys[(e.category, e.severity)] > 0
            && (k.1 == Critical ==> e.severity == Critical)
            && (k.1 == High ==> e.severity in {Critical, High})
            && (k.1 == Medium ==> e.severity in {Critical, High, Medium})
            && e.score == (match e.severity case Critical => 100 case High => 75 case Medium => 50 case _ => 25)
  {
    var t := Technique(k.0).value;
    assert Scored(techniques, k);
    assert t in techniques && EntryFor(keys, t, techniques[t]);
    TechniqueInjective(techniques[t].category, k.0);
    assert (techniques[t].category, techniques[t].severity) in keys;
  }
}
