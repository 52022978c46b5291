/**
 The attack taxonomy of the detector: `label_attack_type` maps a raw label to
 a canonical attack type, the severity rule maps an attack type to a tier and
 `get_threat_score` maps a tier to the score shown on the gauge.
 */
module Taxonomy {
  import opened PyStr

  /** The fixed catalog of attack names, scanned in this order. */
  const Catalog: seq<string> := [
    "DDoS", "DoS GoldenEye", "DoS Hulk", "DoS Slowhttptest", "DoS slowloris",
    "FTP-Patator", "Heartbleed", "Infiltration", "PortScan", "SSH-Patator",
    "Web Attack-Brute Force", "Web Attack-Sql Injection", "Web Attack-XSS", "BOT"
  ]

  /** Attack types whose tier is High, then Medium (the severity rule's lists). */
  const HighTypes: seq<string> := ["Heartbleed", "Infiltration", "DDoS", "BOT"]
  const MediumTypes: seq<string> := ["PortScan", "FTP-Patator", "SSH-Patator"]

  /** `str(label).strip().lower()` for a label that is already a string: the
      result is trimmed and no longer than the label (LowerStripCommute shows
      the order of the two steps does not matter). */
  function Clean(raw: string): (r: string)
    ensures Trimmed(r)
    ensures |r| <= |raw|
  {
    LowerStripCommute(raw);
    StripKeepsCharacters(raw);
    Lower(Strip(raw))
  }

  /** No catalog entry, lower-cased, is a substring of `clean`. */
  predicate NoEntryMatches(clean: string) {
    forall j | 0 <= j < |Catalog| :: !Contains(clean, Lower(Catalog[j]))
  }

  /** Index of the first entry whose lower-cased form occurs in `clean`;
      `|entries|` when there is none. */
  function FirstMatch(entries: seq<string>, clean: string): (k: nat)
    ensures k <= |entries|
    ensures forall j | 0 <= j < k :: !Contains(clean, Lower(entries[j]))
    ensures k < |entries| ==> Contains(clean, Lower(entries[k]))
  {
    if entries == [] then 0
    else if Contains(clean, Lower(entries[0])) then 0
    else 1 + FirstMatch(entries[1..], clean)
  }

  /** `label_attack_type`: BENIGN exactly for a cleaned "benign"; otherwise the
      earliest catalog entry that occurs in the cleaned label; otherwise Other. */
  function LabelAttackType(raw: string): (r: string)
    ensures r == "BENIGN" <==> Clean(raw) == "benign"
    ensures r == "Other" <==> Clean(raw) != "benign" && NoEntryMatches(Clean(raw))
    ensures r == "BENIGN" || r == "Other" || r in Catalog
    ensures r in Catalog ==>
      exists k | 0 <= k < |Catalog| ::
        && r == Catalog[k]
        && Contains(Clean(raw), Lower(Catalog[k]))
        && forall j | 0 <= j < k :: !Contains(Clean(raw), Lower(Catalog[j]))
  {
    CatalogExcludesOutcomes();
    var clean := Clean(raw);
    if clean == "benign" then "BENIGN"
    else
      var k := FirstMatch(Catalog, clean);
      if k < |Catalog| then Catalog[k] else "Other"
  }

  /** The severity rule: the High list first, then the Medium list, then Low
      for a "Web Attack" prefix or a (case-sensitive) "DoS" substring. */
  function Severity(attackType: string): (r: string)
    ensures r in {"High", "Medium", "Low", "None"}
  {
    if attackType in HighTypes then "High"
    else if attackType in MediumTypes then "Medium"
    else if StartsWith(attackType, "Web Attack") || Contains(attackType, "DoS") then "Low"
    else "None"
  }

  /** `get_threat_score`: High, Medium and Low give 90, 60 and 30; any other
      string gives 10. */
  function ThreatScore(severity: string): (score: int)
    ensures score in {10, 30, 60, 90}
    ensures 0 <= score <= 100
  {
    if severity == "High" then 90
    else if severity == "Medium" then 60
    else if severity == "Low" then 30
    else 10
  }

  /** The order of the severity tiers, None lowest. */
  function TierRank(severity: string): nat {
    if severity == "High" then 3
    else if severity == "Medium" then 2
    else if severity == "Low" then 1
    else 0
  }

  // ---------------------------------------------------------------------
  // Lemmas
  // ---------------------------------------------------------------------

  /** The two non-catalog outcomes are not catalog entries. */
  lemma CatalogExcludesOutcomes()
    ensures "BENIGN" !in Catalog && "Other" !in Catalog
  {
  }

  /** A higher tier always has a strictly higher threat score. */
  lemma ScoreFollowsTier(a: string, b: string)
    ensures TierRank(a) < TierRank(b) <==> ThreatScore(a) < ThreatScore(b)
  {
  }

  /** The first match is determined by its contract: any index that matches
      and has no matching entry before it is the one FirstMatch returns. */
  lemma FirstMatchUnique(entries: seq<string>, clean: string, k: nat)
    requires k <= |entries|
    requires forall j | 0 <= j < k :: !Contains(clean, Lower(entries[j]))
    requires k < |entries| ==> Contains(clean, Lower(entries[k]))
    ensures FirstMatch(entries, clean) == k
  {
  }

  /** Leading and trailing whitespace of the label does not change its attack type. */
  lemma LabelIgnoresPadding(w1: string, raw: string, w2: string)
    requires AllSpace(w1) && AllSpace(w2)
    ensures LabelAttackType(w1 + raw + w2) == LabelAttackType(raw)
  {
    StripPadding(w1, raw, w2);
  }

  /** Letter case of the label does not change its attack type. */
  lemma LabelIgnoresCase(a: string, b: string)
    requires Lower(a) == Lower(b)
    ensures LabelAttackType(a) == LabelAttackType(b)
  {
    LowerStripCommute(a);
    LowerStripCommute(b);
  }

  /** The characters Python's `str()` of a float or an integer can produce
      ("5.0", "1e-05", "-inf", "nan"). */
  predicate FloatTextChar(c: char) {
    ('0' <= c <= '9') || c in ".+-enaif"
  }

  /** A label that is the text of a number never names an attack: every
      catalog entry holds a letter that such text cannot contain. */
  lemma NumericLabelIsOther(text: string)
    requires forall i | 0 <= i < |text| :: FloatTextChar(text[i])
    ensures LabelAttackType(text) == "Other"
  {
    CleanKeepsFloatText(text);
    FloatTextMatchesNothing(Clean(text));
  }

  lemma CleanKeepsFloatText(text: string)
    requires forall i | 0 <= i < |text| :: FloatTextChar(text[i])
    ensures forall i | 0 <= i < |Clean(text)| :: FloatTextChar(Clean(text)[i])
  {
    var st := Strip(text);
    var c := Clean(text);
    StripKeepsCharacters(text);
    forall i | 0 <= i < |c| ensures FloatTextChar(c[i]) {
      assert st[i] in st;
      var m :| 0 <= m < |text| && text[m] == st[i];
      assert c[i] == LowerChar(st[i]);
    }
  }

  lemma FloatTextMatchesNothing(c: string)
    requires forall i | 0 <= i < |c| :: FloatTextChar(c[i])
    ensures c != "benign" && NoEntryMatches(c)
  {
    assert |c| == 0 || c[0] != 'b';
    forall j | 0 <= j < |Catalog| ensures !Contains(c, Lower(Catalog[j])) {
      var k := NonNumericLetter(j);
      ForeignCharExcludes(c, Lower(Catalog[j]), k);
    }
  }

  /** A position in catalog entry `j` holding a letter no number's text contains. */
  lemma NonNumericLetter(j: nat) returns (k: nat)
    requires j < |Catalog|
    ensures k < |Catalog[j]| && !FloatTextChar(Lower(Catalog[j])[k])
  {
    k := if j == 5 then 1 else if j == 7 then 4 else 0;
    assert Lower(Catalog[j])[k] == LowerChar(Catalog[j][k]);
    if j < 5 {
      assert Catalog[j][0] == 'D';
    } else if j == 5 || j == 7 {
      assert Catalog[j][k] in "Tl";
    } else if j < 10 {
      assert Catalog[j][0] in "HPS";
    } else {
      assert Catalog[j][0] in "WB";
    }
  }

  /** Catalog entry `k` is what `label_attack_type` returns for any label
      whose cleaned form is not "benign", contains entry `k` and none before it. */
  lemma ClassifiesAs(raw: string, k: nat)
    requires k < |Catalog| && Clean(raw) != "benign"
    requires forall j | 0 <= j < k :: !Contains(Clean(raw), Lower(Catalog[j]))
    requires Contains(Clean(raw), Lower(Catalog[k]))
    ensures LabelAttackType(raw) == Catalog[k]
  {
    FirstMatchUnique(Catalog, Clean(raw), k);
  }

  /** One letter of each catalog entry, lower-cased, used to rule the entry out. */
  function KeyLetter(j: nat): char {
    if j < 5 || j == 6 then 'd'
    else if j == 5 || j == 7 then 'f'
    else if j == 8 || j == 9 then 'p'
    else if j == 10 then 'r'
    else if j == 11 then 'q'
    else if j == 12 then 'x'
    else 'b'
  }

  /** Where entry `j`'s key letter sits in it. */
  lemma KeyLetterAt(j: nat) returns (k: nat)
    requires j < |Catalog|
    ensures k < |Catalog[j]| && LowerChar(Catalog[j][k]) == KeyLetter(j)
  {
    k := if j == 6 then 9 else if j == 7 then 2 else if j == 9 then 4
         else if j == 10 || j == 11 then 12 else if j == 12 then 11 else 0;
    if j == 0 {
      assert Catalog[0][0] == 'D';
    } else if j == 1 {
      assert Catalog[1][0] == 'D';
    } else if j == 2 {
      assert Catalog[2][0] == 'D';
    } else if j == 3 {
      assert Catalog[3][0] == 'D';
    } else if j == 4 {
      assert Catalog[4][0] == 'D';
    } else if j == 5 {
      assert Catalog[5][0] == 'F';
    } else if j == 6 {
      assert Catalog[6][9] == 'd';
    } else if j == 7 {
      assert Catalog[7][2] == 'f';
    } else if j == 8 {
      assert Catalog[8][0] == 'P';
    } else if j == 9 {
      assert Catalog[9][4] == 'P';
    } else if j == 10 {
      assert Catalog[10][12] == 'r';
    } else if j == 11 {
      assert Catalog[11][12] == 'q';
    } else if j == 12 {
      assert Catalog[12][11] == 'X';
    } else {
      assert Catalog[13][0] == 'B';
    }
  }

  /** A label lacking, in both cases, the key letters of the first `n` entries
      contains none of those entries. */
  lemma KeyLettersAbsent(raw: string, n: nat)
    requires n <= |Catalog|
    requires forall j | 0 <= j < n :: KeyLetter(j) !in raw && UpperChar(KeyLetter(j)) !in raw
    ensures forall j | 0 <= j < n :: !Contains(Clean(raw), Lower(Catalog[j]))
  {
    var st := Strip(raw);
    StripKeepsCharacters(raw);
    forall j | 0 <= j < n ensures !Contains(Clean(raw), Lower(Catalog[j])) {
      var k := KeyLetterAt(j);
      var c := KeyLetter(j);
      assert c !in st && UpperChar(c) !in st;
      LowerAvoids(st, c);
      ForeignCharExcludes(Clean(raw), Lower(Catalog[j]), k);
    }
  }

  /** Catalog entry `k`, given exactly as the label, is classified as itself
      when no earlier entry occurs in it (EveryEntryNamesItself shows that
      none does). */
  lemma ExactEntry(k: nat)
    requires k < |Catalog|
    requires forall j | 0 <= j < k :: !Contains(Clean(Catalog[k]), Lower(Catalog[j]))
    ensures LabelAttackType(Catalog[k]) == Catalog[k]
  {
    EntryShape(k);
    CleanOccursInItself(Catalog[k]);
    ClassifiesAs(Catalog[k], k);
  }

  /** Every catalog entry is trimmed and, being of another length than
      "benign", never cleans to it. */
  lemma EntryShape(k: nat)
    requires k < |Catalog|
    ensures Trimmed(Catalog[k]) && |Catalog[k]| != 6
  {
    if k == 0 { assert Catalog[k] == "DDoS"; }
    else if k == 1 { assert Catalog[k] == "DoS GoldenEye"; }
    else if k == 2 { assert Catalog[k] == "DoS Hulk"; }
    else if k == 3 { assert Catalog[k] == "DoS Slowhttptest"; }
    else if k == 4 { assert Catalog[k] == "DoS slowloris"; }
    else if k == 5 { assert Catalog[k] == "FTP-Patator"; }
    else if k == 6 { assert Catalog[k] == "Heartbleed"; }
    else if k == 7 { assert Catalog[k] == "Infiltration"; }
    else if k == 8 { assert Catalog[k] == "PortScan"; }
    else if k == 9 { assert Catalog[k] == "SSH-Patator"; }
    else if k == 10 { assert Catalog[k] == "Web Attack-Brute Force"; }
    else if k == 11 { assert Catalog[k] == "Web Attack-Sql Injection"; }
    else if k == 12 { assert Catalog[k] == "Web Attack-XSS"; }
    else { assert Catalog[k] == "BOT"; }
  }

  /** A trimmed label, cleaned, is its lower-cased form and contains it. */
  lemma CleanOccursInItself(raw: string)
    requires Trimmed(raw)
    ensures |Clean(raw)| == |raw|
    ensures Contains(Clean(raw), Lower(raw))
  {
    assert Strip(raw) == raw;
    SelfContains(Lower(raw));
  }

  lemma SelfContains(s: string)
    ensures Contains(s, s)
  {
    assert s[0..|s|] == s;
    assert OccursAt(s, s, 0);
  }

  /** Example: "BENIGN" is benign, tier None, score 10. */
  lemma BenignExample()
    ensures LabelAttackType("BENIGN") == "BENIGN"
    ensures Severity("BENIGN") == "None" && ThreatScore(Severity("BENIGN")) == 10
  {
    BenignNamesItself();
    UnnamedTier("BENIGN");
  }

  lemma BenignNamesItself()
    ensures LabelAttackType("BENIGN") == "BENIGN"
  {
    CleanBenign();
  }

  lemma CleanBenign()
    ensures Clean("BENIGN") == "benign"
  {
    assert Trimmed("BENIGN");
    assert Lower("BENIGN") == "benign";
  }

  /** Example: "DDoS" is DDoS, tier High although it contains "DoS", score 90. */
  lemma DDoSExample()
    ensures LabelAttackType("DDoS") == "DDoS"
    ensures Contains("DDoS", "DoS")
    ensures Severity("DDoS") == "High" && ThreatScore(Severity("DDoS")) == 90
  {
    DDoSNamesItself();
    DDoSHoldsDoS();
    DDoSTier();
  }

  lemma DDoSNamesItself()
    ensures LabelAttackType("DDoS") == "DDoS"
  {
    ExactEntry(0);
  }

  lemma DDoSHoldsDoS()
    ensures Contains("DDoS", "DoS")
  {
    assert "DDoS"[1..4] == "DoS";
    assert OccursAt("DoS", "DDoS", 1);
  }

  lemma DDoSTier()
    ensures Severity("DDoS") == "High" && ThreatScore(Severity("DDoS")) == 90
  {
    assert "DDoS" in HighTypes;
  }

  lemma XssNamesItself()
    ensures LabelAttackType("Web Attack-XSS") == "Web Attack-XSS"
  {
    XssKeyLetters();
    ExactEntry(12);
  }

  lemma XssKeyLetters()
    ensures forall j | 0 <= j < 12 :: !Contains(Clean("Web Attack-XSS"), Lower(Catalog[j]))
  {
    KeyLettersAbsent("Web Attack-XSS", 12);
  }

  /** Example: "Web Attack-XSS" is itself, tier Low, score 30. */
  lemma WebAttackXssExample()
    ensures LabelAttackType("Web Attack-XSS") == "Web Attack-XSS"
    ensures Severity("Web Attack-XSS") == "Low" && ThreatScore(Severity("Web Attack-XSS")) == 30
  {
    XssNamesItself();
    XssTier();
  }

  lemma XssTier()
    ensures Severity("Web Attack-XSS") == "Low" && ThreatScore(Severity("Web Attack-XSS")) == 30
  {
    assert StartsWith("Web Attack-XSS", "Web Attack");
  }

  /** Example: "PortScan" is itself, tier Medium, score 60. */
  lemma PortScanExample()
    ensures LabelAttackType("PortScan") == "PortScan"
    ensures Severity("PortScan") == "Medium" && ThreatScore(Severity("PortScan")) == 60
  {
    PortScanNamesItself();
    PortScanTier();
  }

  lemma PortScanNamesItself()
    ensures LabelAttackType("PortScan") == "PortScan"
  {
    KeyLettersAbsent("PortScan", 8);
    ExactEntry(8);
  }

  lemma PortScanTier()
    ensures Severity("PortScan") == "Medium" && ThreatScore(Severity("PortScan")) == 60
  {
  }

  lemma UnknownIsOther()
    ensures LabelAttackType("totally-unknown-thing") == "Other"
  {
    KeyLettersAbsent("totally-unknown-thing", |Catalog|);
    CleanLength("totally-unknown-thing");
  }

  /** Example: a label naming no catalog entry is Other, tier None, score 10. */
  lemma UnknownExample()
    ensures LabelAttackType("totally-unknown-thing") == "Other"
    ensures Severity("Other") == "None" && ThreatScore(Severity("Other")) == 10
  {
    UnknownIsOther();
    UnnamedTier("Other");
  }

  /** BENIGN and Other are in neither list, neither starts with "Web Attack"
      nor holds "DoS": both get tier None and score 10. */
  lemma UnnamedTier(t: string)
    requires t == "BENIGN" || t == "Other"
    ensures Severity(t) == "None" && ThreatScore(Severity(t)) == 10
  {
    ForeignCharExcludes(t, "DoS", 0);
  }

  /** Cleaning a trimmed label keeps its length. */
  lemma CleanLength(raw: string)
    requires Trimmed(raw)
    ensures |Clean(raw)| == |raw|
  {
  }

  // ---------------------------------------------------------------------
  // Severity tiers of the possible attack types
  // ---------------------------------------------------------------------

  /** "DoS", case-sensitive and lower-cased, occurs in a string that holds it at `i`. */
  lemma DoSAt(t: string, i: nat)
    requires OccursAt("DoS", t, i)
    ensures Contains(t, "DoS") && Contains(Lower(t), "dos")
  {
    assert Lower(t)[i..i + 3] == Lower(t[i..i + 3]);
    assert Lower("DoS") == "dos";
    assert OccursAt("dos", Lower(t), i);
  }

  /** A string lacking one letter of "dos" in both cases contains "DoS" in
      neither its own nor its lower-cased form. */
  lemma NoDoS(t: string, k: nat)
    requires k < 3 && "dos"[k] !in t && UpperChar("dos"[k]) !in t
    ensures !Contains(t, "DoS") && !Contains(Lower(t), "dos")
  {
    assert "DoS"[k] == "dos"[k] || "DoS"[k] == UpperChar("dos"[k]);
    ForeignCharExcludes(t, "DoS", k);
    LowerAvoids(t, "dos"[k]);
    ForeignCharExcludes(Lower(t), "dos", k);
  }

  /** The severity rule's case-sensitive `"DoS" in x` agrees with the
      case-insensitive test `"dos" in x.lower()` on every attack type
      `label_attack_type` can return. */
  lemma DoSRuleCaseInsensitive(t: string)
    requires t == "BENIGN" || t == "Other" || t in Catalog
    ensures Contains(t, "DoS") <==> Contains(Lower(t), "dos")
  {
    if t == "BENIGN" || t == "Other" {
      NoDoS(t, 0);
    } else {
      var j :| 0 <= j < |Catalog| && Catalog[j] == t;
      EntryDoSRule(j);
    }
  }

  lemma EntryDoSRule(j: nat)
    requires j < |Catalog|
    ensures Contains(Catalog[j], "DoS") <==> Contains(Lower(Catalog[j]), "dos")
  {
    if j == 0 {
      DoSAt(Catalog[j], 1);
    } else if j <= 4 {
      DoSFamilyPrefix(j);
      DoSAt(Catalog[j], 0);
    } else if j == 6 {
      NoDoS(Catalog[j], 1);
    } else {
      LacksD(j);
      NoDoS(Catalog[j], 0);
    }
  }

  /** Entries 1 to 4 start with "DoS". */
  lemma DoSFamilyPrefix(j: nat)
    requires 1 <= j <= 4
    ensures OccursAt("DoS", Catalog[j], 0)
  {
    if j == 1 { assert Catalog[j][..3] == "DoS"; }
    else if j == 2 { assert Catalog[j][..3] == "DoS"; }
    else if j == 3 { assert Catalog[j][..3] == "DoS"; }
    else { assert Catalog[j][..3] == "DoS"; }
  }

  /** The entries other than DDoS, the "DoS ..." family and Heartbleed hold no
      letter d in either case. */
  lemma LacksD(j: nat)
    requires 5 <= j < |Catalog| && j != 6
    ensures 'd' !in Catalog[j] && 'D' !in Catalog[j]
  {
    if j == 5 { assert Catalog[j] == "FTP-Patator"; }
    else if j == 7 { assert Catalog[j] == "Infiltration"; }
    else if j == 8 { assert Catalog[j] == "PortScan"; }
    else if j == 9 { assert Catalog[j] == "SSH-Patator"; }
    else if j == 10 { assert Catalog[j] == "Web Attack-Brute Force"; }
    else if j == 11 { assert Catalog[j] == "Web Attack-Sql Injection"; }
    else if j == 12 { assert Catalog[j] == "Web Attack-XSS"; }
    else { assert Catalog[j] == "BOT"; }
  }

  /** The tier of each catalog entry: High for DDoS, Heartbleed, Infiltration
      and BOT; Medium for FTP-Patator, PortScan and SSH-Patator; Low for the
      four "DoS ..." entries and the three "Web Attack-..." entries. In
      particular DDoS is High although it contains "DoS": the High list is
      consulted first. */
  lemma EntryTier(j: nat)
    requires j < |Catalog|
    ensures Severity(Catalog[j]) == "High" <==> j in {0, 6, 7, 13}
    ensures Severity(Catalog[j]) == "Medium" <==> j in {5, 8, 9}
    ensures Severity(Catalog[j]) == "Low" <==> j in {1, 2, 3, 4, 10, 11, 12}
  {
    var t := Catalog[j];
    if j in {0, 6, 7, 13} {
      assert t in HighTypes;
    } else if j in {5, 8, 9} {
      assert t !in HighTypes && t in MediumTypes;
    } else if j <= 4 {
      assert t !in HighTypes && t !in MediumTypes;
      DoSFamilyPrefix(j);
      DoSAt(t, 0);
    } else {
      assert t !in HighTypes && t !in MediumTypes;
      assert StartsWith(t, "Web Attack");
    }
  }

  /** Every label gets tier None, and so score 10, exactly when it is benign or
      names no catalog entry; every named attack gets a real tier. */
  lemma NoneTierIffUnnamed(raw: string)
    ensures var t := LabelAttackType(raw);
      Severity(t) == "None" <==> t == "BENIGN" || t == "Other"
    ensures var t := LabelAttackType(raw);
      ThreatScore(Severity(t)) == 10 <==> t == "BENIGN" || t == "Other"
  {
    var t := LabelAttackType(raw);
    if t == "BENIGN" {
      UnnamedTier("BENIGN");
    } else if t == "Other" {
      UnnamedTier("Other");
    } else {
      var j :| 0 <= j < |Catalog| && Catalog[j] == t;
      EntryTier(j);
    }
  }

  /** "DoS Hulk" is classified as itself: DDoS does not occur in it (no two
      adjacent d's) and "DoS GoldenEye" is longer than it. */
  lemma DoSHulkNamesItself()
    ensures LabelAttackType("DoS Hulk") == "DoS Hulk"
  {
    HulkLacksDDoS();
    HulkLacksGoldenEye();
    HulkHoldsItself();
    ThirdEntryWins("DoS Hulk");
  }

  /** A label that contains entry 2 but neither entry 0 nor entry 1 is entry 2. */
  lemma ThirdEntryWins(raw: string)
    requires Clean(raw) != "benign"
    requires !Contains(Clean(raw), Lower(Catalog[0])) && !Contains(Clean(raw), Lower(Catalog[1]))
    requires Contains(Clean(raw), Lower(Catalog[2]))
    ensures LabelAttackType(raw) == "DoS Hulk"
  {
    ClassifiesAs(raw, 2);
  }

  lemma HulkHoldsItself()
    ensures Clean("DoS Hulk") != "benign"
    ensures Contains(Clean("DoS Hulk"), Lower(Catalog[2]))
  {
    HulkClean();
    assert OccursAt(Lower(Catalog[2]), Clean("DoS Hulk"), 0);
  }

  lemma HulkClean()
    ensures Clean("DoS Hulk") == Lower("DoS Hulk") && |Clean("DoS Hulk")| == 8
  {
    assert Trimmed("DoS Hulk");
  }

  lemma HulkLacksDDoS()
    ensures !Contains(Clean("DoS Hulk"), Lower(Catalog[0]))
  {
    HulkClean();
    PairAbsent("DoS Hulk", "DDoS", 0);
  }

  lemma HulkLacksGoldenEye()
    ensures !Contains(Clean("DoS Hulk"), Lower(Catalog[1]))
  {
    HulkClean();
    assert |Lower(Catalog[1])| == 13;
  }

  lemma DoSHulkTier()
    ensures Severity("DoS Hulk") == "Low" && ThreatScore(Severity("DoS Hulk")) == 30
  {
    EntryTier(2);
  }

  // ---------------------------------------------------------------------
  // Every catalog name is classified as itself
  // ---------------------------------------------------------------------

  /** A trimmed label cleans to its lower-cased form. */
  lemma CleanTrimmed(raw: string)
    requires Trimmed(raw)
    ensures Clean(raw) == Lower(raw)
  {
  }

  /** `p` does not occur in a trimmed label lacking, in both cases, the
      letter at position `i` of `p`. */
  lemma LetterExcludes(s: string, p: string, i: nat)
    requires Trimmed(s) && i < |p| && 'a' <= LowerChar(p[i]) <= 'z'
    requires LowerChar(p[i]) !in s && UpperChar(LowerChar(p[i])) !in s
    ensures !Contains(Clean(s), Lower(p))
  {
    CleanTrimmed(s);
    LetterAbsent(s, p, i);
  }

  /** DDoS does not occur in a trimmed label with no two adjacent d's. */
  lemma DoubleDExcludes(s: string)
    requires Trimmed(s)
    requires forall i | 0 <= i < |s| - 1 :: !(LowerChar(s[i]) == 'd' && LowerChar(s[i + 1]) == 'd')
    ensures !Contains(Clean(s), Lower(Catalog[0]))
  {
    CleanTrimmed(s);
    PairAbsent(s, Catalog[0], 0);
  }

  /** A name longer than a trimmed label does not occur in it. */
  lemma LengthExcludes(s: string, p: string)
    requires Trimmed(s) && |s| < |p|
    ensures !Contains(Clean(s), Lower(p))
  {
    CleanTrimmed(s);
  }

  /** DDoS and the four "DoS ..." entries start with a capital D. */
  lemma DFamily(j: nat)
    requires j < 5
    ensures Catalog[j][0] == 'D'
  {
    if j == 0 { assert Catalog[j] == "DDoS"; }
    else if j == 1 { assert Catalog[j] == "DoS GoldenEye"; }
    else if j == 2 { assert Catalog[j] == "DoS Hulk"; }
    else if j == 3 { assert Catalog[j] == "DoS Slowhttptest"; }
    else { assert Catalog[j] == "DoS slowloris"; }
  }

  /** A trimmed label without the letter d holds neither DDoS nor a "DoS ..." entry. */
  lemma NoDFamily(s: string)
    requires Trimmed(s) && 'd' !in s && 'D' !in s
    ensures forall j | 0 <= j < 5 :: !Contains(Clean(s), Lower(Catalog[j]))
  {
    forall j | 0 <= j < 5 ensures !Contains(Clean(s), Lower(Catalog[j])) {
      DFamily(j);
      LetterExcludes(s, Catalog[j], 0);
    }
  }

  lemma GoldenEyeEntry(k: nat)
    requires k == 1
    ensures LabelAttackType(Catalog[k]) == Catalog[k]
  {
    DoubleDExcludes("DoS GoldenEye");
    ExactEntry(1);
  }

  /** "DoS Slowhttptest" holds no DDoS, no g (of GoldenEye) and no u (of Hulk). */
  lemma SlowhttptestMatchesFirst()
    ensures forall j | 0 <= j < 3 :: !Contains(Clean("DoS Slowhttptest"), Lower(Catalog[j]))
  {
    var s := "DoS Slowhttptest";
    forall j | 0 <= j < 3 ensures !Contains(Clean(s), Lower(Catalog[j])) {
      if j == 0 { DoubleDExcludes(s); }
      else if j == 1 { LetterExcludes(s, "DoS GoldenEye", 4); }
      else { LetterExcludes(s, "DoS Hulk", 5); }
    }
  }

  lemma SlowhttptestEntry(k: nat)
    requires k == 3
    ensures LabelAttackType(Catalog[k]) == Catalog[k]
  {
    SlowhttptestMatchesFirst();
    ExactEntry(3);
  }

  /** "DoS slowloris" holds no DDoS, no g, no u, and is shorter than
      "DoS Slowhttptest". */
  lemma SlowlorisMatchesFirst()
    ensures forall j | 0 <= j < 4 :: !Contains(Clean("DoS slowloris"), Lower(Catalog[j]))
  {
    var s := "DoS slowloris";
    forall j | 0 <= j < 4 ensures !Contains(Clean(s), Lower(Catalog[j])) {
      if j == 0 { DoubleDExcludes(s); }
      else if j == 1 { LetterExcludes(s, "DoS GoldenEye", 4); }
      else if j == 2 { LetterExcludes(s, "DoS Hulk", 5); }
      else { LengthExcludes(s, "DoS Slowhttptest"); }
    }
  }

  lemma SlowlorisEntry(k: nat)
    requires k == 4
    ensures LabelAttackType(Catalog[k]) == Catalog[k]
  {
    SlowlorisMatchesFirst();
    ExactEntry(4);
  }

  lemma FtpPatatorEntry(k: nat)
    requires k == 5
    ensures LabelAttackType(Catalog[k]) == Catalog[k]
  {
    KeyLettersAbsent("FTP-Patator", 5);
    ExactEntry(5);
  }

  /** "Heartbleed" holds no DDoS, no o (of every "DoS ...") and no f (of
      FTP-Patator). */
  lemma HeartbleedMatchesFirst()
    ensures forall j | 0 <= j < 6 :: !Contains(Clean("Heartbleed"), Lower(Catalog[j]))
  {
    HeartbleedLacksEarly();
    HeartbleedLacksLate();
  }

  lemma HeartbleedLacksEarly()
    ensures forall j | 0 <= j < 3 :: !Contains(Clean("Heartbleed"), Lower(Catalog[j]))
  {
    var s := "Heartbleed";
    forall j | 0 <= j < 3 ensures !Contains(Clean(s), Lower(Catalog[j])) {
      if j == 0 { DoubleDExcludes(s); }
      else if j == 1 { LetterExcludes(s, "DoS GoldenEye", 1); }
      else { LetterExcludes(s, "DoS Hulk", 1); }
    }
  }

  lemma HeartbleedLacksLate()
    ensures forall j | 3 <= j < 6 :: !Contains(Clean("Heartbleed"), Lower(Catalog[j]))
  {
    var s := "Heartbleed";
    forall j | 3 <= j < 6 ensures !Contains(Clean(s), Lower(Catalog[j])) {
      if j == 3 { LetterExcludes(s, "DoS Slowhttptest", 1); }
      else if j == 4 { LetterExcludes(s, "DoS slowloris", 1); }
      else { LetterExcludes(s, "FTP-Patator", 0); }
    }
  }

  lemma HeartbleedEntry(k: nat)
    requires k == 6
    ensures LabelAttackType(Catalog[k]) == Catalog[k]
  {
    HeartbleedMatchesFirst();
    ExactEntry(6);
  }

  /** "Infiltration" holds no d, no p (of FTP-Patator) and no h (of Heartbleed). */
  lemma InfiltrationMatchesFirst()
    ensures forall j | 0 <= j < 7 :: !Contains(Clean("Infiltration"), Lower(Catalog[j]))
  {
    var s := "Infiltration";
    NoDFamily(s);
    forall j | 5 <= j < 7 ensures !Contains(Clean(s), Lower(Catalog[j])) {
      if j == 5 { LetterExcludes(s, "FTP-Patator", 2); }
      else { LetterExcludes(s, "Heartbleed", 0); }
    }
  }

  lemma InfiltrationEntry(k: nat)
    requires k == 7
    ensures LabelAttackType(Catalog[k]) == Catalog[k]
  {
    InfiltrationMatchesFirst();
    ExactEntry(7);
  }

  /** "SSH-Patator" holds no d, f, b (of Heartbleed) or n (of PortScan). */
  lemma SshPatatorMatchesFirst()
    ensures forall j | 0 <= j < 9 :: !Contains(Clean("SSH-Patator"), Lower(Catalog[j]))
  {
    NoDFamily("SSH-Patator");
    SshPatatorLacksFB();
    SshPatatorLacksFN();
  }

  lemma SshPatatorLacksFB()
    ensures forall j | 5 <= j < 7 :: !Contains(Clean("SSH-Patator"), Lower(Catalog[j]))
  {
    var s := "SSH-Patator";
    forall j | 5 <= j < 7 ensures !Contains(Clean(s), Lower(Catalog[j])) {
      if j == 5 { LetterExcludes(s, "FTP-Patator", 0); }
      else { LetterExcludes(s, "Heartbleed", 5); }
    }
  }

  lemma SshPatatorLacksFN()
    ensures forall j | 7 <= j < 9 :: !Contains(Clean("SSH-Patator"), Lower(Catalog[j]))
  {
    var s := "SSH-Patator";
    forall j | 7 <= j < 9 ensures !Contains(Clean(s), Lower(Catalog[j])) {
      if j == 7 { LetterExcludes(s, "Infiltration", 2); }
      else { LetterExcludes(s, "PortScan", 7); }
    }
  }

  lemma SshPatatorEntry(k: nat)
    requires k == 9
    ensures LabelAttackType(Catalog[k]) == Catalog[k]
  {
    SshPatatorMatchesFirst();
    ExactEntry(9);
  }

  /** "Web Attack-Brute Force" holds no d, p, h or i in either case. */
  lemma BruteForceMatchesFirst()
    ensures forall j | 0 <= j < 10 :: !Contains(Clean("Web Attack-Brute Force"), Lower(Catalog[j]))
  {
    var s := "Web Attack-Brute Force";
    assert Trimmed(s);
    BruteForceLacksDP();
    BruteForceLacksHI();
    NoDPHIMatchesFirst(s);
  }

  lemma BruteForceLacksDP()
    ensures 'd' !in "Web Attack-Brute Force" && 'D' !in "Web Attack-Brute Force"
    ensures 'p' !in "Web Attack-Brute Force" && 'P' !in "Web Attack-Brute Force"
  {
  }

  lemma BruteForceLacksHI()
    ensures 'h' !in "Web Attack-Brute Force" && 'H' !in "Web Attack-Brute Force"
    ensures 'i' !in "Web Attack-Brute Force" && 'I' !in "Web Attack-Brute Force"
  {
  }

  /** A trimmed label without d, p, h or i, in either case, holds none of the
      first ten entries: each of them has one of these letters. */
  lemma NoDPHIMatchesFirst(s: string)
    requires Trimmed(s)
    requires 'd' !in s && 'D' !in s && 'p' !in s && 'P' !in s
    requires 'h' !in s && 'H' !in s && 'i' !in s && 'I' !in s
    ensures forall j | 0 <= j < 10 :: !Contains(Clean(s), Lower(Catalog[j]))
  {
    NoDFamily(s);
    forall j | 5 <= j < 10 ensures !Contains(Clean(s), Lower(Catalog[j])) {
      if j == 5 { LetterExcludes(s, "FTP-Patator", 2); }
      else if j == 6 { LetterExcludes(s, "Heartbleed", 0); }
      else if j == 7 { LetterExcludes(s, "Infiltration", 0); }
      else if j == 8 { LetterExcludes(s, "PortScan", 0); }
      else { LetterExcludes(s, "SSH-Patator", 4); }
    }
  }

  lemma BruteForceEntry(k: nat)
    requires k == 10
    ensures LabelAttackType(Catalog[k]) == Catalog[k]
  {
    BruteForceMatchesFirst();
    ExactEntry(10);
  }

  lemma SqlInjectionEntry(k: nat)
    requires k == 11
    ensures LabelAttackType(Catalog[k]) == Catalog[k]
  {
    SqlInjectionMatchesFirst();
    ExactEntry(11);
  }

  /** "Web Attack-Sql Injection" holds none of the key letters d, f, p, r. */
  lemma SqlInjectionMatchesFirst()
    ensures forall j | 0 <= j < 11 :: !Contains(Clean("Web Attack-Sql Injection"), Lower(Catalog[j]))
  {
    SqlInjectionLacksDF();
    SqlInjectionLacksPR();
    KeyLettersAbsent("Web Attack-Sql Injection", 11);
  }

  lemma SqlInjectionLacksDF()
    ensures 'd' !in "Web Attack-Sql Injection" && 'D' !in "Web Attack-Sql Injection"
    ensures 'f' !in "Web Attack-Sql Injection" && 'F' !in "Web Attack-Sql Injection"
  {
  }

  lemma SqlInjectionLacksPR()
    ensures 'p' !in "Web Attack-Sql Injection" && 'P' !in "Web Attack-Sql Injection"
    ensures 'r' !in "Web Attack-Sql Injection" && 'R' !in "Web Attack-Sql Injection"
  {
  }

  lemma BotEntry(k: nat)
    requires k == 13
    ensures LabelAttackType(Catalog[k]) == Catalog[k]
  {
    KeyLettersAbsent("BOT", 13);
    ExactEntry(13);
  }

  /** The four entries with worked examples, by index. Each forwards to the
      example's lemma on the literal name: the other direction, from
      `Catalog[k]` to the literal, costs the solver several times more. */
  lemma DDoSEntry(k: nat)
    requires k == 0
    ensures LabelAttackType(Catalog[k]) == Catalog[k]
  {
    DDoSNamesItself();
  }

  lemma HulkEntry(k: nat)
    requires k == 2
    ensures LabelAttackType(Catalog[k]) == Catalog[k]
  {
    HulkLacksDDoS();
    HulkLacksGoldenEye();
    ExactEntry(2);
  }

  lemma PortScanEntry(k: nat)
    requires k == 8
    ensures LabelAttackType(Catalog[k]) == Catalog[k]
  {
    PortScanNamesItself();
  }

  lemma XssEntry(k: nat)
    requires k == 12
    ensures LabelAttackType(Catalog[k]) == Catalog[k]
  {
    XssNamesItself();
  }

  /** Each of the 14 catalog names, given as the label, is classified as
      itself: no name contains an earlier one, so catalog order never hides
      an exact name. */
  lemma EveryEntryNamesItself(k: nat)
    requires k < |Catalog|
    ensures LabelAttackType(Catalog[k]) == Catalog[k]
  {
    if k == 0 { DDoSEntry(k); }
    else if k == 1 { GoldenEyeEntry(k); }
    else if k == 2 { HulkEntry(k); }
    else if k == 3 { SlowhttptestEntry(k); }
    else if k == 4 { SlowlorisEntry(k); }
    else if k == 5 { FtpPatatorEntry(k); }
    else if k == 6 { HeartbleedEntry(k); }
    else if k == 7 { InfiltrationEntry(k); }
    else if k == 8 { PortScanEntry(k); }
    else if k == 9 { SshPatatorEntry(k); }
    else if k == 10 { BruteForceEntry(k); }
    else if k == 11 { SqlInjectionEntry(k); }
    else if k == 12 { XssEntry(k); }
    else { BotEntry(k); }
  }
}
