/** Accepting an evaluator configuration and running it on one output. */
module EvaluatorEngine {
  import opened Options
  import opened RunTables
  import opened WorkerEvidence

  const REGISTRY: set<string> := {
    "exact_match", "contains_keywords", "semantic_similarity", "token_f1_overlap", "embedding_similarity",
    "retrieval_hit_rate", "forbidden_claim", "latency_threshold", "cost_threshold", "faithfulness"}

  /** One entry of the stored list; a missing name reads as the empty string. */
  datatype Spec = NotAnObject | Object(name: string)

  datatype ConfigError = NoEvaluators | EntryNotAnObject(index: nat) | MissingName(index: nat)
    | UnknownEvaluator(name: string) | DuplicateEvaluator(name: string) | Unavailable(name: string)

  predicate IsSpace(c: char) {
    c == ' ' || '\t' <= c <= '\r' || '\U{1C}' <= c <= '\U{1F}'
  }

  function TrimLeft(s: string): string {
    if s != "" && IsSpace(s[0]) then TrimLeft(s[1..]) else s
  }

  function TrimRight(s: string): string {
    if s != "" && IsSpace(s[|s| - 1]) then TrimRight(s[..|s| - 1]) else s
  }

  /** `str.strip`, on ASCII. */
  function Strip(s: string): string {
    TrimRight(TrimLeft(s))
  }

  predicate AllSpaces(s: string) {
    forall k | 0 <= k < |s| :: IsSpace(s[k])
  }

  lemma {:induction false} TrimLeftExactly(s: string) returns (front: string)
    ensures s == front + TrimLeft(s) && AllSpaces(front)
    ensures TrimLeft(s) != "" ==> !IsSpace(TrimLeft(s)[0])
  {
    if s != "" && IsSpace(s[0]) {
      var rest := TrimLeftExactly(s[1..]);
      front := [s[0]] + rest;
      assert s == [s[0]] + s[1..];
    } else {
      front := "";
    }
  }

  lemma {:induction false} TrimRightExactly(s: string) returns (back: string)
    ensures s == TrimRight(s) + back && AllSpaces(back)
    ensures TrimRight(s) != "" ==> !IsSpace(TrimRight(s)[|TrimRight(s)| - 1])
  {
    if s != "" && IsSpace(s[|s| - 1]) {
      var rest := TrimRightExactly(s[..|s| - 1]);
      back := rest + [s[|s| - 1]];
      assert s == s[..|s| - 1] + [s[|s| - 1]];
    } else {
      back := "";
    }
  }

  /** Stripping removes spaces from both ends, all of them and nothing else. */
  lemma StripExactly(s: string) returns (front: string, back: string)
    ensures s == front + Strip(s) + back && AllSpaces(front) && AllSpaces(back)
    ensures Strip(s) != "" ==> !IsSpace(Strip(s)[0]) && !IsSpace(Strip(s)[|Strip(s)| - 1])
  {
    front := TrimLeftExactly(s);
    back := TrimRightExactly(TrimLeft(s));
    assert s == front + (Strip(s) + back);
    assert Strip(s) != "" ==> Strip(s)[0] == TrimLeft(s)[0];
  }

  /** The first complaint about entry k, given the entries before it. */
  function Complaint(specs: seq<Spec>, k: nat, available: set<string>): Option<ConfigError>
    requires k < |specs|
  {
    if specs[k].NotAnObject? then Some(EntryNotAnObject(k))
    else
      var name := Strip(specs[k].name);
      if name == "" then Some(MissingName(k))
      else if name !in REGISTRY then Some(UnknownEvaluator(name))
      else if exists j | 0 <= j < k :: specs[j].Object? && Strip(specs[j].name) == name
        then Some(DuplicateEvaluator(name))
      else if name !in available then Some(Unavailable(name))
      else None
  }

  predicate Accepted(specs: seq<Spec>, available: set<string>) {
    && specs != []
    && forall k | 0 <= k < |specs| :: Complaint(specs, k, available).None?
  }

  /** Accepted lists are the non-empty ones whose entries name, spaces around a name aside, registered and
      available evaluators, none twice. */
  lemma AcceptedExactly(specs: seq<Spec>, available: set<string>)
    ensures Accepted(specs, available) <==>
      && specs != []
      && (forall k | 0 <= k < |specs| ::
            specs[k].Object? && Strip(specs[k].name) in REGISTRY && Strip(specs[k].name) in available)
      && (forall j, k | 0 <= j < k < |specs| :: Strip(specs[j].name) != Strip(specs[k].name))
  {
    hide Strip;
    if Accepted(specs, available) {
      forall k | 0 <= k < |specs|
        ensures specs[k].Object? && Strip(specs[k].name) in REGISTRY && Strip(specs[k].name) in available
      {
        assert Complaint(specs, k, available).None?;
      }
      forall j, k | 0 <= j < k < |specs| ensures Strip(specs[j].name) != Strip(specs[k].name) {
        assert Complaint(specs, k, available).None? && Complaint(specs, j, available).None?;
      }
    }
  }

  /** `validate_evaluator_config`; None stands for anything but a list. */
  method ValidateEvaluatorConfig(specs: Option<seq<Spec>>, available: set<string>)
    returns (r: Result<seq<Spec>, ConfigError>)
    ensures r.Ok? <==> specs.Some? && Accepted(specs.value, available)
    ensures r.Ok? ==> r.value == specs.value
    ensures r.Err? ==> if specs.None? || specs.value == [] then r.error == NoEvaluators
      else exists k | 0 <= k < |specs.value| ::
        && Complaint(specs.value, k, available) == Some(r.error)
        && forall j | 0 <= j < k :: Complaint(specs.value, j, available).None?
  {
    if specs.None? || specs.value == [] {
      return Err(NoEvaluators);
    }
    var seen: set<string> := {};
    for k := 0 to |specs.value|
      invariant forall j | 0 <= j < k :: Complaint(specs.value, j, available).None?
      invariant forall name :: name in seen <==>
        exists j | 0 <= j < k :: specs.value[j].Object? && Strip(specs.value[j].name) == name
    {
      var spec := specs.value[k];
      if spec.NotAnObject? {
        assert Complaint(specs.value, k, available) == Some(EntryNotAnObject(k));
        return Err(EntryNotAnObject(k));
      }
      var name := Strip(spec.name);
      if name == "" {
        assert Complaint(specs.value, k, available) == Some(MissingName(k));
        return Err(MissingName(k));
      }
      if name !in REGISTRY {
        assert Complaint(specs.value, k, available) == Some(UnknownEvaluator(name));
        return Err(UnknownEvaluator(name));
      }
      if name in seen {
        assert Complaint(specs.value, k, available) == Some(DuplicateEvaluator(name));
        return Err(DuplicateEvaluator(name));
      }
      seen := seen + {name};
      if name !in available {
        assert Complaint(specs.value, k, available) == Some(Unavailable(name));
        return Err(Unavailable(name));
      }
    }
    return Ok(specs.value);
  }

  // ---- Running ----

  /** A registered evaluator is foreign code: it returns a row or raises. */
  type Evaluators = (string, CaseId, AdapterOutput) -> Option<EvalRow>

  /** Every registered evaluator reports under its registered name. */
  ghost predicate ReportOwnName(run: Evaluators) {
    forall name, c, output | name in REGISTRY && run(name, c, output).Some? ::
      run(name, c, output).value.evaluator == name
  }

  function RowFor(spec: Spec, c: CaseId, output: AdapterOutput, run: Evaluators): EvalRow
    requires spec.Object?
  {
    if spec.name !in REGISTRY then
      EvalRow(if spec.name == "" then "unknown" else spec.name, None, None, true, false)
    else
      var result := run(spec.name, c, output);
      if result.Some? then result.value else EvalRow(spec.name, None, None, true, false)
  }

  predicate AllObjects(specs: seq<Spec>) {
    forall k | 0 <= k < |specs| :: specs[k].Object?
  }

  function RowsFor(specs: seq<Spec>, c: CaseId, output: AdapterOutput, run: Evaluators): (rows: seq<EvalRow>)
    requires AllObjects(specs)
    ensures |rows| == |specs| && forall k | 0 <= k < |specs| :: rows[k] == RowFor(specs[k], c, output, run)
  {
    seq(|specs|, k requires 0 <= k < |specs| => RowFor(specs[k], c, output, run))
  }

  /** `evaluate_case`: one row per entry, in order, whatever the evaluators do. */
  method EvaluateCase(specs: seq<Spec>, c: CaseId, output: AdapterOutput, run: Evaluators) returns (rows: seq<EvalRow>)
    requires AllObjects(specs)
    ensures rows == RowsFor(specs, c, output, run)
  {
    rows := [];
    for k := 0 to |specs|
      invariant rows == RowsFor(specs, c, output, run)[..k]
    {
      var name := specs[k].name;
      if name !in REGISTRY {
        rows := rows + [EvalRow(if name == "" then "unknown" else name, None, None, true, false)];
      } else {
        var result := run(name, c, output);
        if result.Some? {
          rows := rows + [result.value];
        } else {
          rows := rows + [EvalRow(name, None, None, true, false)];
        }
      }
    }
  }

  /** Lookup does not strip the name that validation stripped; names stay distinct all the same. */
  lemma AcceptedRowsDistinct(specs: seq<Spec>, available: set<string>, c: CaseId, output: AdapterOutput,
      run: Evaluators)
    requires Accepted(specs, available) && ReportOwnName(run)
    ensures AllObjects(specs) && DistinctNames(RowsFor(specs, c, output, run))
  {
    forall k | 0 <= k < |specs| ensures specs[k].Object? && specs[k].name != "" {
      assert Complaint(specs, k, available).None?;
    }
    var rows := RowsFor(specs, c, output, run);
    forall j, k | 0 <= j < k < |rows| ensures rows[j].evaluator != rows[k].evaluator {
      assert Complaint(specs, k, available).None? && Complaint(specs, j, available).None?;
      assert rows[j] == RowFor(specs[j], c, output, run) && rows[k] == RowFor(specs[k], c, output, run);
      assert Strip(specs[j].name) != Strip(specs[k].name);
    }
  }

  /** When every configuration in use was accepted, runs meet the hypothesis of the worker protocol:
      no item ever gets two rows of one name. */
  lemma AcceptedConfigsAreValidated(world: World, specsOf: ConfigId -> seq<Spec>, available: set<string>,
      run: Evaluators)
    requires ReportOwnName(run) && forall config :: Accepted(specsOf(config), available)
    requires forall config, c, output :: AllObjects(specsOf(config)) ==>
      world.evaluate(config, c, output) == RowsFor(specsOf(config), c, output, run)
    ensures ValidatedConfigs(world)
  {
    forall config, c, output ensures DistinctNames(world.evaluate(config, c, output)) {
      AcceptedRowsDistinct(specsOf(config), available, c, output, run);
    }
  }

  lemma RegisteredNamesAreStripped(name: string)
    requires name in REGISTRY
    ensures Strip(name) == name
  {
    assert name != "" && !IsSpace(name[0]) && !IsSpace(name[|name| - 1]);
  }

  /** The row of an entry whose evaluator was not found. */
  function NotFoundRow(name: string): EvalRow {
    EvalRow(name, None, None, true, false)
  }

  /** Exactly which accepted names are found: those without spaces around them. Any other accepted entry
      errors whatever its evaluator would return, and a found one shows what its evaluator returns. */
  lemma AcceptedNameFoundExactly(specs: seq<Spec>, available: set<string>, k: nat, c: CaseId, output: AdapterOutput)
    requires Accepted(specs, available) && k < |specs|
    ensures specs[k].Object? && specs[k].name != ""
    ensures specs[k].name in REGISTRY <==> Strip(specs[k].name) == specs[k].name
    ensures (forall run: Evaluators :: RowFor(specs[k], c, output, run) == NotFoundRow(specs[k].name))
      <==> Strip(specs[k].name) != specs[k].name
    ensures forall run: Evaluators | Strip(specs[k].name) == specs[k].name && run(specs[k].name, c, output).Some? ::
      RowFor(specs[k], c, output, run) == run(specs[k].name, c, output).value
    ensures forall run: Evaluators | run(specs[k].name, c, output).None? ::
      RowFor(specs[k], c, output, run) == NotFoundRow(specs[k].name)
  {
    assert Complaint(specs, k, available).None?;
    var name := specs[k].name;
    if name in REGISTRY {
      RegisteredNamesAreStripped(name);
      var run: Evaluators := (name, c, output) => Some(EvalRow(name, Some(1.0), Some(true), false, false));
      assert RowFor(specs[k], c, output, run) != NotFoundRow(name);
    }
  }

  /** For instance, an accepted list whose one evaluator is never found. */
  lemma AcceptedNameNotFound(c: CaseId, output: AdapterOutput, run: Evaluators)
    ensures var specs := [Object(" exact_match")];
      && Accepted(specs, REGISTRY)
      && RowsFor(specs, c, output, run) == [EvalRow(" exact_match", None, None, true, false)]
  {
    var name := " exact_match";
    assert name[1..] == "exact_match";
    assert TrimLeft(name) == TrimLeft("exact_match") == "exact_match";
    assert TrimRight("exact_match") == "exact_match";
  }
}
