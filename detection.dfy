/**
 One pass of the detector over its single-slot mailbox: the payload file is
 read; an empty table is removed; otherwise the first record is taken, the
 file is removed, and the record is normalised, given to the model and
 classified.
 */
module Detection {
  import opened PyStr
  import opened Taxonomy
  import opened Records
  import opened Normaliser

  /** What reading the payload file gives: a parse failure, or the rows of a
      table (each row a record). */
  datatype Payload = Unreadable | Table(rows: seq<Record>)

  /** The exceptions the pass reports: the file cannot be parsed, or the first
      record has no Label column. */
  datatype Failure = ReadError | MissingLabel

  /** What the dashboard shows for a detected record. */
  datatype Report = Report(
    vector: seq<real>, prediction: string, attackType: string, severity: string, score: int)

  /** The result of one pass: the "no attack" warning, the "no new records"
      notice, a detection, or a reported failure. */
  datatype Outcome = NoAttack | NoRecords | Detected(d: Report) | Failed(f: Failure)

  /** `df_all.empty`: the table has no rows or no columns (a table whose first
      row has no cells has no columns). A table that is not empty has a row 0
      with at least one cell for the detection to read. */
  predicate EmptyTable(rows: seq<Record>): (r: bool)
    ensures !r <==> |rows| >= 1 && |rows[0]| >= 1
  {
    rows == [] || rows[0] == []
  }

  /** `label_attack_type` applied to the Label cell. A text cell is classified
      as it stands; a numeric cell is rendered by `str()` as the text of a
      number, which never names an attack (see NumericLabelIsOther). */
  function CellAttackType(v: Value): (t: string)
    ensures t == "BENIGN" || t == "Other" || t in Catalog
    ensures v.Text? ==> t == LabelAttackType(v.s)
    ensures v.Num? ==> t == "Other"
  {
    match v
    case Text(s) => LabelAttackType(s)
    case Num(_) => "Other"
  }

  /** Lines 65-94 on the record taken from the table: the normalised vector,
      the model's prediction, the attack type of the Label cell, its tier and
      its score; a record without a Label column fails. */
  function Detect(rec: Record, features: seq<string>, predict: seq<real> -> string): (out: Outcome)
    ensures out.Detected? || out == Failed(MissingLabel)
    ensures out == Failed(MissingLabel) <==>
      forall i | 0 <= i < |rec| :: Strip(rec[i].name) != "Label"
    ensures out.Detected? ==>
      && out.d.vector == Normalised(rec, features)
      && out.d.prediction == predict(out.d.vector)
      && ColumnValue(StripNames(rec), "Label").Some?
      && out.d.attackType == CellAttackType(ColumnValue(StripNames(rec), "Label").value)
      && out.d.severity == Severity(out.d.attackType)
      && out.d.score == ThreatScore(out.d.severity)
    ensures out.Detected? ==>
      && |out.d.vector| == |features|
      && out.d.score in {10, 30, 60, 90}
      && (out.d.score == 10 <==> out.d.attackType == "BENIGN" || out.d.attackType == "Other")
  {
    var cols := StripNames(rec);
    var vector := Normalised(rec, features);
    match ColumnValue(cols, "Label")
    case None => Failed(MissingLabel)
    case Some(v) =>
      var t := CellAttackType(v);
      TypeScore(t);
      Detected(Report(vector, predict(vector), t, Severity(t), ThreatScore(Severity(t))))
  }

  /** An attack type the classifier can return scores 10 exactly when it is
      BENIGN or Other. */
  lemma TypeScore(t: string)
    requires t == "BENIGN" || t == "Other" || t in Catalog
    ensures ThreatScore(Severity(t)) == 10 <==> t == "BENIGN" || t == "Other"
  {
    if t == "BENIGN" {
      UnnamedTier("BENIGN");
    } else if t == "Other" {
      UnnamedTier("Other");
    } else {
      var j :| 0 <= j < |Catalog| && Catalog[j] == t;
      EntryTier(j);
    }
  }

  /** What one pass reports for a given slot. */
  function StepOutcome(slot: Option<Payload>, features: seq<string>, predict: seq<real> -> string): (out: Outcome)
    ensures out == NoAttack <==> slot.None?
    ensures out == Failed(ReadError) <==> slot == Some(Unreadable)
    ensures out == NoRecords <==> slot.Some? && slot.value.Table? && EmptyTable(slot.value.rows)
    ensures out.Detected? || out == Failed(MissingLabel) <==>
      slot.Some? && slot.value.Table? && !EmptyTable(slot.value.rows)
    ensures slot.Some? && slot.value.Table? && !EmptyTable(slot.value.rows) ==>
      out == Detect(slot.value.rows[0], features, predict)
  {
    match slot
    case None => NoAttack
    case Some(Unreadable) => Failed(ReadError)
    case Some(Table(rows)) =>
      if EmptyTable(rows) then NoRecords else Detect(rows[0], features, predict)
  }

  /** Only the first row of the table is classified: the rows after it
      change nothing in what the pass reports (they are lost with the file). */
  lemma LaterRowsIgnored(first: Record, rest: seq<Record>, features: seq<string>, predict: seq<real> -> string)
    requires first != []
    ensures StepOutcome(Some(Table([first] + rest)), features, predict)
      == StepOutcome(Some(Table([first])), features, predict)
    ensures NextSlot(Some(Table([first] + rest))) == NextSlot(Some(Table([first]))) == None
  {
    assert ([first] + rest)[0] == first;
  }

  /** The slot after one pass: a table is always removed (before its record
      is processed, so also when processing fails); an unreadable file is
      left in place, since reading it fails before the removal. */
  function NextSlot(slot: Option<Payload>): (next: Option<Payload>)
    ensures next.None? <==> slot.None? || slot.value.Table?
    ensures next.Some? ==> next == slot
  {
    match slot
    case Some(Unreadable) => slot
    case _ => None
  }

  /** The detector: the feature list and the model, taken to be the same on
      every pass, and the shared payload slot. */
  class Detector {
    const features: seq<string>
    const predict: seq<real> -> string
    var slot: Option<Payload>

    constructor(features: seq<string>, predict: seq<real> -> string, slot: Option<Payload>)
      ensures this.features == features && this.predict == predict && this.slot == slot
    {
      this.features := features;
      this.predict := predict;
      this.slot := slot;
    }

    /** Lines 53-63 and 122-125: one pass over the slot. */
    method Step() returns (out: Outcome)
      modifies this
      ensures out == StepOutcome(old(slot), features, predict)
      ensures slot == NextSlot(old(slot))
    {
      if slot.None? {
        out := NoAttack;
        return;
      }
      match slot.value
      case Unreadable =>
        out := Failed(ReadError);
      case Table(rows) =>
        if EmptyTable(rows) {
          slot := None;
          out := NoRecords;
        } else {
          var rec := rows[0];
          slot := None;
          var vector := Normalise(rec, features);
          var prediction := predict(vector);
          match ColumnValue(StripNames(rec), "Label")
          case None =>
            out := Failed(MissingLabel);
          case Some(v) =>
            var attackType := CellAttackType(v);
            var severity := Severity(attackType);
            out := Detected(Report(vector, prediction, attackType, severity, ThreatScore(severity)));
        }
    }

    /** Lines 127-129: the pass re-runs, `rounds` times, with nothing written
        to the slot in between. A table is consumed by the first pass and
        every later pass finds the slot empty; an unreadable file fails on
        every pass. */
    method Poll(rounds: nat) returns (outs: seq<Outcome>)
      modifies this
      ensures |outs| == rounds
      ensures slot == (if rounds == 0 then old(slot) else NextSlot(old(slot)))
      ensures rounds > 0 ==> outs[0] == StepOutcome(old(slot), features, predict)
      ensures forall i | 1 <= i < rounds :: outs[i] == StepOutcome(NextSlot(old(slot)), features, predict)
    {
      outs := [];
      while |outs| < rounds
        invariant |outs| <= rounds
        invariant slot == (if |outs| == 0 then old(slot) else NextSlot(old(slot)))
        invariant |outs| > 0 ==> outs[0] == StepOutcome(old(slot), features, predict)
        invariant forall i | 1 <= i < |outs| :: outs[i] == StepOutcome(NextSlot(old(slot)), features, predict)
      {
        NextSlotSettles(old(slot));
        var out := Step();
        outs := outs + [out];
      }
    }
  }

  /** A second pass finds the slot as the first left it: the payload is
      processed at most once. */
  lemma NextSlotSettles(slot: Option<Payload>)
    ensures NextSlot(NextSlot(slot)) == NextSlot(slot)
  {
  }

  /** Once a table has been consumed, the next pass reports no attack; an
      unreadable file is reported again. */
  lemma AtMostOnce(slot: Option<Payload>, features: seq<string>, predict: seq<real> -> string)
    ensures slot.Some? && slot.value.Table? ==> StepOutcome(NextSlot(slot), features, predict) == NoAttack
    ensures slot == Some(Unreadable) ==> StepOutcome(NextSlot(slot), features, predict) == Failed(ReadError)
  {
  }

  // ---------------------------------------------------------------------
  // The worked example
  // ---------------------------------------------------------------------

  /** The record {Label: "DoS Hulk", feat_a: 5.0}: a text Label column and a
      numeric feat_a column. */
  const HulkRecord: Record := [Object("Label", Text("DoS Hulk")), Numeric("feat_a", Finite(5.0))]
  const HulkFeatures: seq<string> := ["feat_a", "feat_b"]

  lemma HulkHeaders()
    ensures StripNames(HulkRecord) == HulkRecord
  {
    assert Trimmed("Label") && Trimmed("feat_a");
    StripNamesTrimmed(HulkRecord);
  }

  lemma HulkLookups()
    ensures NumericValue(HulkRecord, "feat_a") == Some(Finite(5.0))
    ensures NumericValue(HulkRecord, "feat_b") == None
  {
    assert HulkRecord[1..] == [Numeric("feat_a", Finite(5.0))];
  }

  lemma HulkFeatA()
    ensures Normalised(HulkRecord, HulkFeatures)[0] == 5.0
  {
    HulkHeaders();
    HulkLookups();
    EntryFromLookup(HulkRecord, HulkFeatures, 0, Some(Finite(5.0)));
  }

  lemma HulkFeatB()
    ensures Normalised(HulkRecord, HulkFeatures)[1] == 0.0
  {
    HulkHeaders();
    HulkLookups();
    EntryFromLookup(HulkRecord, HulkFeatures, 1, None);
  }

  /** feat_a is taken from its column and the missing feat_b becomes 0.0. */
  lemma HulkVector()
    ensures Normalised(HulkRecord, HulkFeatures) == [5.0, 0.0]
  {
    HulkFeatA();
    HulkFeatB();
  }

  lemma HulkLabel()
    ensures ColumnValue(StripNames(HulkRecord), "Label") == Some(Text("DoS Hulk"))
  {
    HulkHeaders();
  }

  /** The pass over a one-record table, given what each stage yields. */
  lemma SingleRecordPass(rec: Record, features: seq<string>, predict: seq<real> -> string,
                         vector: seq<real>, text: string, t: string, severity: string, score: int)
    requires Normalised(rec, features) == vector
    requires ColumnValue(StripNames(rec), "Label") == Some(Text(text))
    requires LabelAttackType(text) == t && Severity(t) == severity && ThreatScore(severity) == score
    ensures StepOutcome(Some(Table([rec])), features, predict)
      == Detected(Report(vector, predict(vector), t, severity, score))
  {
  }

  /** A payload holding only the example record yields the vector [5.0, 0.0],
      attack type "DoS Hulk", tier Low and score 30, whatever the model
      predicts. */
  lemma DoSHulkEndToEnd(predict: seq<real> -> string)
    ensures StepOutcome(Some(Table([HulkRecord])), HulkFeatures, predict)
      == Detected(Report([5.0, 0.0], predict([5.0, 0.0]), "DoS Hulk", "Low", 30))
  {
    HulkVector();
    HulkLabel();
    DoSHulkNamesItself();
    DoSHulkTier();
    SingleRecordPass(HulkRecord, HulkFeatures, predict, [5.0, 0.0], "DoS Hulk", "DoS Hulk", "Low", 30);
  }
}
