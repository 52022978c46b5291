# IDS detector: detection pipeline model

This project models the detection pipeline of the intrusion detection
dashboard in `detector_dashboard/detector_app.py`, and proves properties of
it. The dashboard reads a shared payload file. If the file holds a table, it
takes the first record and deletes the file. It then turns the record into
the feature vector the random-forest model expects. Finally it names the
attack from the record's `Label` column and grades it with a severity tier
and a threat score.

The modules follow the program's parts:

- `PyStr` (`pystr.dfy`): the Python string operations the pipeline relies on. These are `str.strip()` (over Python's whitespace set), `str.lower()`, the substring test `p in s` and `str.startswith`.
- `Taxonomy` (`taxonomy.dfy`): three pure functions.
  - `label_attack_type`, modelled as `LabelAttackType` with the catalog search `FirstMatch`.
  - The severity rule, modelled as `Severity`.
  - `get_threat_score`, modelled as `ThreatScore`.
- `Records` (`records.dfy`): the record taken from the payload. It is a sequence of columns, each with its pandas dtype. A numeric column holds a `Number`: finite, +inf, -inf or NaN. An object column holds text or a number. This module also holds the header stripping of line 65 and the column lookups.
- `Normaliser` (`normaliser.dfy`): lines 65-73, written as the pandas steps they are.
  - Select the numeric columns.
  - A loop adds every missing feature as a 0.0 column.
  - Project onto the feature order into an array.
  - Two in-place passes over that array replace infinities, then NaN.
  - The method `Normalise` runs these steps in order. It is proved equal to the specification function `Normalised`, and the properties of the vector are proved about `Normalised`.
- `Detection` (`detection.dfy`): one pass over the slot, modelled by `StepOutcome` and `NextSlot`.
  - The class `Detector` holds the feature list, the model's `predict`, and the `slot` field that stands for the payload file.
  - `Detector.Step` performs one pass and is proved against `StepOutcome` and `NextSlot`.
  - `Detector.Poll` repeats the pass, as the dashboard's re-run loop does.
  - This module also holds the worked example `{Label: "DoS Hulk", feat_a: 5.0}`.

`predict` is an uninterpreted function from the vector to a label, so every
result holds whatever the model answers. The feature list is a parameter.
The file system and the CSV parser are abstracted into the slot. The slot is
`None` when there is no file, `Some(Unreadable)` when parsing fails, and
`Some(Table(rows))` otherwise.

Two behaviours of the code a reader might not expect; the model follows the code:

- An unparsable payload is not discarded. `pd.read_csv` raises before `os.remove` is reached (lines 55-63), so the file stays and every later pass fails on it again. `NextSlot`, `AtMostOnce` and `Detector.Poll` state this.
- The "Low" severity rule is the case-sensitive `"DoS" in x` of line 82, not a case-insensitive test. `DoSRuleCaseInsensitive` shows that the two agree on every attack type `label_attack_type` can return. The outcome is therefore the same.

## Model

| member | source | states |
|---|---|---|
| PyStr.Strip | detector_dashboard/detector_app.py:36 | `strip()` leaves no whitespace at either end and leaves a trimmed string alone |
| PyStr.StripEmpty | detector_dashboard/detector_app.py:36 | `strip()` gives the empty string exactly for an all-whitespace string |
| PyStr.StripKeepsCharacters | detector_dashboard/detector_app.py:36 | `strip()` returns a contiguous slice of its input, so it is no longer and adds no character |
| PyStr.StripPadding | detector_dashboard/detector_app.py:36 | whitespace added around a string does not change what `strip()` returns |
| PyStr.Lower | detector_dashboard/detector_app.py:36 | `lower()` (lines 36 and 44) gives one character for each character of its input; only the ASCII capitals A-Z are lowered, so non-ASCII letters keep their case |
| PyStr.LowerOnlyCapitals | detector_dashboard/detector_app.py:36 | after `lower()` no ASCII capital is left, and every character that was not an ASCII capital is unchanged |
| PyStr.Contains | detector_dashboard/detector_app.py:44 | Python's `p in s` (lines 44 and 82) holds only when `p` is no longer than `s`, and always for the empty `p` |
| PyStr.StartsWith | detector_dashboard/detector_app.py:82 | `s.startswith(p)` holds exactly when `p` is no longer than `s` and equals the start of `s`, and then `p` is in `s` |
| PyStr.LowerStripCommute | detector_dashboard/detector_app.py:36 | stripping then lower-casing equals lower-casing then stripping |
| Taxonomy.ThreatScore | detector_dashboard/detector_app.py:25-33 | the score is always one of 10, 30, 60, 90 and lies in [0, 100] |
| Taxonomy.ScoreFollowsTier | detector_dashboard/detector_app.py:25-33 | a higher tier (None < Low < Medium < High) gets a strictly higher score, and only then |
| Taxonomy.Clean | detector_dashboard/detector_app.py:36 | the cleaned label `str(label).strip().lower()` is trimmed and no longer than the label |
| Taxonomy.FirstMatch | detector_dashboard/detector_app.py:39-45 | the index found is a matching entry with no matching entry before it, or the end when none matches |
| Taxonomy.FirstMatchUnique | detector_dashboard/detector_app.py:39-45 | any index that matches with no earlier match is the one the search returns |
| Taxonomy.LabelAttackType | detector_dashboard/detector_app.py:35-46 | BENIGN exactly when the cleaned label is "benign"; Other exactly when it is not benign and no entry occurs in it; otherwise the earliest catalog entry whose lower-cased form occurs in the cleaned label |
| Taxonomy.CatalogExcludesOutcomes | detector_dashboard/detector_app.py:38-46 | BENIGN and Other are not catalog entries, so the three kinds of result never coincide |
| Taxonomy.ClassifiesAs | detector_dashboard/detector_app.py:39-45 | a label that contains entry k and no earlier entry is classified as entry k |
| Taxonomy.LabelIgnoresPadding | detector_dashboard/detector_app.py:36 | leading and trailing whitespace do not change the attack type |
| Taxonomy.LabelIgnoresCase | detector_dashboard/detector_app.py:36 | labels equal up to letter case get the same attack type |
| Taxonomy.NumericLabelIsOther | detector_dashboard/detector_app.py:36-46 | a label that is the text of a number (digits, sign, point, exponent, inf, nan) is classified as Other |
| Taxonomy.ExactEntry | detector_dashboard/detector_app.py:39-45 | catalog entry k, given exactly as the label, is classified as itself when no earlier entry occurs in it |
| Taxonomy.EveryEntryNamesItself | detector_dashboard/detector_app.py:39-45 | each of the 14 catalog names, given as the label, is classified as itself: no name contains an earlier one, so catalog order never hides an exact name |
| Taxonomy.BenignExample | detector_dashboard/detector_app.py:37-38 | "BENIGN" is BENIGN, tier None, score 10 |
| Taxonomy.DDoSExample | detector_dashboard/detector_app.py:39-45 | "DDoS" is DDoS and, although it contains "DoS", is tier High with score 90 |
| Taxonomy.WebAttackXssExample | detector_dashboard/detector_app.py:39-45 | "Web Attack-XSS" is itself, tier Low, score 30 |
| Taxonomy.PortScanExample | detector_dashboard/detector_app.py:39-45 | "PortScan" is itself, tier Medium, score 60 |
| Taxonomy.UnknownExample | detector_dashboard/detector_app.py:46 | the literal label "totally-unknown-thing" is Other, tier None, score 10 (LabelAttackType's contract gives Other for every label naming no entry) |
| Taxonomy.DoSHulkNamesItself | detector_dashboard/detector_app.py:39-45 | "DoS Hulk" is itself: DDoS does not occur in it and the earlier "DoS GoldenEye" is longer |
| Taxonomy.Severity | detector_dashboard/detector_app.py:79-84 | the tier is one of High, Medium, Low, None |
| Taxonomy.EntryTier | detector_dashboard/detector_app.py:79-84 | the tier of every catalog entry: DDoS, Heartbleed, Infiltration and BOT High; FTP-Patator, PortScan and SSH-Patator Medium; the four DoS entries and three Web Attack entries Low; DDoS is High although it contains "DoS" |
| Taxonomy.DoSRuleCaseInsensitive | detector_dashboard/detector_app.py:82 | on every possible attack type, the case-sensitive `"DoS" in x` agrees with the case-insensitive `"dos" in x.lower()` |
| Taxonomy.UnnamedTier | detector_dashboard/detector_app.py:79-84 | BENIGN and Other fall through all three rules to tier None, and so score 10 |
| Taxonomy.NoneTierIffUnnamed | detector_dashboard/detector_app.py:78-94 | a label gets tier None, and score 10, exactly when its type is BENIGN or Other |
| Records.StripNames | detector_dashboard/detector_app.py:65 | every header is stripped in place; dtypes, cells and column order are unchanged |
| Records.ColumnValue | detector_dashboard/detector_app.py:78 | `df['Label']` finds the first column under that header, of any dtype, or reports that there is none |
| Records.NumericValue | detector_dashboard/detector_app.py:66-71 | the lookup finds nothing exactly when no numeric column has the header, and otherwise the first such column |
| Records.NumericValueAppend | detector_dashboard/detector_app.py:70 | in a concatenation, the first part's column wins; a column appended at the end is found only when the frame lacked one |
| Normaliser.SelectNumeric | detector_dashboard/detector_app.py:66 | the kept columns are exactly the numeric ones |
| Normaliser.SelectKeepsNumericValue | detector_dashboard/detector_app.py:66 | dropping the non-numeric columns changes no feature lookup |
| Normaliser.HasColumn | detector_dashboard/detector_app.py:69 | `col in df.columns` holds exactly when `df[col]` finds a column, and whenever a numeric column carries the header |
| Normaliser.AddMissing | detector_dashboard/detector_app.py:68-70 | after the loop, each feature finds its existing numeric column, or the 0.0 added for it; all columns stay numeric |
| Normaliser.Project | detector_dashboard/detector_app.py:71 | the frame holds one cell per selected feature, in feature order, each the cell of that feature's column |
| Normaliser.NoInfinity | detector_dashboard/detector_app.py:72 | +inf and -inf become 0.0; finite values and NaN are kept, so no infinity survives |
| Normaliser.NoNaN | detector_dashboard/detector_app.py:73 | NaN becomes 0.0 and every other value is kept, so no NaN survives `fillna` |
| Normaliser.ReplaceInfinite | detector_dashboard/detector_app.py:72 | every cell of the frame, in place, becomes its infinity-free form |
| Normaliser.FillNaN | detector_dashboard/detector_app.py:73 | every cell of the frame, in place, becomes its NaN-free form |
| Normaliser.Normalised | detector_dashboard/detector_app.py:65-73 | the vector has exactly one entry per selected feature |
| Normaliser.Normalise | detector_dashboard/detector_app.py:65-73 | running the pandas steps in order (strip, select, add missing, project, replace, fill) yields exactly the normalised vector |
| Normaliser.FirstNumericColumnDecides | detector_dashboard/detector_app.py:65-73 | entry i is the value of the first numeric column whose stripped header is feature i when that value is finite, and 0.0 for an infinity or NaN |
| Normaliser.MissingFeatureIsZero | detector_dashboard/detector_app.py:68-70 | a feature with no numeric column under its header is 0.0, even if a text column carries that header |
| Normaliser.ObjectColumnIgnored | detector_dashboard/detector_app.py:66 | inserting a non-numeric column anywhere does not change the vector |
| Normaliser.UnselectedColumnIgnored | detector_dashboard/detector_app.py:71 | inserting a numeric column that is not a selected feature does not change the vector |
| Normaliser.HeaderPaddingIgnored | detector_dashboard/detector_app.py:65 | whitespace around a header does not change the vector |
| Normaliser.AdjacentColumnsCommute | detector_dashboard/detector_app.py:71 | swapping two columns with different stripped headers does not change the vector; its order is that of the features |
| Detection.CellAttackType | detector_dashboard/detector_app.py:78 | a text Label cell gets `label_attack_type` of its text; a numeric cell gives Other; the type is always BENIGN, Other or a catalog entry |
| Detection.Detect | detector_dashboard/detector_app.py:65-94 | the record fails exactly when no column's stripped header is "Label"; otherwise the report's vector is the normalised record, its prediction is the model's answer on that vector, its type is that of the first Label cell, and its tier and score are the severity rule and `get_threat_score` of that type; the score is one of 10, 30, 60, 90, and is 10 exactly for BENIGN or Other |
| Detection.TypeScore | detector_dashboard/detector_app.py:79-94 | every possible attack type scores 10 exactly when it is BENIGN or Other |
| Detection.EmptyTable | detector_dashboard/detector_app.py:57 | `df_all.empty` is false exactly when the table has a row 0 with at least one cell; a table with no rows, or whose first row has no cells (no columns), is empty |
| Detection.StepOutcome | detector_dashboard/detector_app.py:53-63 | a pass warns exactly when there is no file, fails to read exactly for an unparsable file, reports no records exactly for an empty table, and otherwise reports exactly what Detect gives for row 0 |
| Detection.LaterRowsIgnored | detector_dashboard/detector_app.py:62-63 | rows after the first change neither the report nor the slot: only row 0 is classified and the rest are lost with the file |
| Detection.NextSlot | detector_dashboard/detector_app.py:53-63 | a table is removed whatever happens next; an unparsable file stays; no file stays absent |
| Detection.Detector.constructor | detector_dashboard/detector_app.py:22-23 | the detector starts with the given feature list, model and slot |
| Detection.Detector.Step | detector_dashboard/detector_app.py:53-125 | one pass returns StepOutcome of the old slot and leaves NextSlot of it |
| Detection.Detector.Poll | detector_dashboard/detector_app.py:127-129 | over repeated passes with no new payload, the first pass consumes the payload and every later pass reports what the slot it left gives |
| Detection.NextSlotSettles | detector_dashboard/detector_app.py:53-63 | a second pass leaves the slot as the first left it |
| Detection.AtMostOnce | detector_dashboard/detector_app.py:53-63 | after a table is consumed the next pass reports no attack, so, with a single detector and no write during a pass, a record is processed at most once; an unparsable file fails again on the next pass |
| Detection.HulkVector | detector_dashboard/detector_app.py:65-73 | the record {Label: "DoS Hulk", feat_a: 5.0} with features [feat_a, feat_b] normalises to [5.0, 0.0] |
| Detection.DoSHulkEndToEnd | detector_dashboard/detector_app.py:53-94 | a payload holding that record yields vector [5.0, 0.0], type "DoS Hulk", tier Low and score 30, whatever the model predicts |

## Left out

- The Streamlit page, sidebar, messages, metrics, expander and the Plotly gauge (lines 14-19, 48-50, 88-120). They only render the outcome, which `Detection` returns as a value.
- `joblib.load` and the model's internals (lines 21-23, 75). `predict` is an uninterpreted total function. An exception raised inside `predict` is not modelled. `st.experimental_rerun` (line 129) re-runs the whole script, so lines 22-23 reload the model and the feature list on every pass. `Detector` keeps both as constants, so the model assumes the files do not change between passes.
- `pd.read_csv`, `os.path.exists` and `os.remove` as real I/O. The file is the `slot` field, and any parse failure is `Unreadable`.
- A table that has rows but no columns counts as empty when its first row has no cells. Ragged rows are not modelled.
- `time.time()`, the duration, the timestamp and the `Prediction`, `Timestamp`, `Attack_Type` and `Severity` columns written back into the displayed frame (lines 61, 76-79, 86). They are display-only. `time.sleep` and `st.experimental_rerun` (lines 128-129) are reduced to the round count of `Poll`.
- Detection.Detector.Step: one pass is atomic. In the dashboard another process can write the payload file between `pd.read_csv` (line 55) and `os.remove` (lines 59 and 63); that payload is then deleted unread. And if another process removed the file first, `os.remove` raises `FileNotFoundError`, which the dashboard reports as a failed detection (line 123), while `Step` always empties the slot. "At most once" (`AtMostOnce`, `Poll`) therefore holds only for a single detector with no write during a pass.
- Detection.CellAttackType: a numeric Label cell is not rendered with Python's `str()`. It is classified as Other directly, which `NumericLabelIsOther` shows is what any number's text gives.
- PyStr.Lower: only the ASCII letters are mapped. Python's full Unicode case mapping is not modelled.
- Boolean columns appear as object columns holding "True" or "False". `select_dtypes(include=[np.number])` excludes them, as the model does.
- Numbers are mathematical reals. Float rounding and integer widths play no part in these lines, apart from infinities and NaN, which are modelled.
- Two columns whose headers collide after stripping: the model takes the first. pandas would hand back a frame of both, a case the dashboard does not handle.
- `attacker_app.py` is not part of this model. It uploads a file, samples a random row and writes it to Firebase. That is I/O, randomness and a foreign service. The detector never reads what it writes.
