/** The projection of a stored event for the browser, and the browser's guard on it. */
module EventProjection {
  import opened Prelude

  datatype Value = Text(text: string) | Number(number: int) | Flag(flag: bool) | Other

  datatype Row = Row(kind: string, payload: map<string, Value>)

  datatype Summary = Summary(kind: string, payload: map<string, Value>)

  const MAX_CURSOR := 9007199254740991

  const STATUSES: set<string> := {
    "succeeded", "partial", "failed", "budget_exceeded", "cancelled", "running", "queued", "paused",
    "pause_requested", "cancel_requested", "awaiting_approval", "recovery_required"}

  const KINDS: set<string> := {
    "submitted", "claimed", "call_reconciled", "recovery_verified", "checkpoint_rejected",
    "approval_consumed", "unit_started", "budget_saved", "call_started", "call_finished",
    "checkpoint_saved", "pause", "resume", "cancel", "memory_retrieved", "memory_enabled_changed",
    "experience_recorded", "approval_requested", "approval_decided"}

  const STAGES: set<string> := {"planner", "executor", "quality", "reviewer", "replanner", "writer", "done"}

  const CALL_KINDS: set<string> := {"llm", "search", "training", "sandbox", "tool", "repair", "embedding"}

  function PublicKind(kind: string): string {
    if kind in KINDS then kind else "other"
  }

  function Allowed(kind: string): set<string> {
    match kind
    case "checkpoint_saved" => {"status", "stage", "sequence"}
    case "unit_started" => {"stage", "version"}
    case "claimed" => {"previous"}
    case "pause" => {"status"}
    case "resume" => {"status"}
    case "cancel" => {"status"}
    case "call_started" => {"kind_name"}
    case "call_finished" => {"kind_name"}
    case "approval_decided" => {"decision"}
    case "memory_enabled_changed" => {"enabled"}
    case "memory_retrieved" => {"project_version"}
    case _ => {}
  }

  function Choices(key: string): set<string> {
    match key
    case "status" => STATUSES
    case "previous" => STATUSES
    case "stage" => STAGES
    case "kind_name" => CALL_KINDS
    case "decision" => {"approve", "reject", "modify"}
    case _ => {}
  }

  predicate Disclosed(key: string, value: Value) {
    || (value.Text? && value.text in Choices(key))
    || (key == "enabled" && value.Flag?)
    || (key in {"sequence", "version", "project_version"} && value.Number?
        && 0 <= value.number <= MAX_CURSOR)
  }

  /** What the browser may see of one field, if anything. */
  function Shown(key: string, value: Value): Option<Value> {
    if key == "kind_name" && value.Text? && "mcp:" <= value.text then Some(Text("mcp"))
    else if Disclosed(key, value) then Some(value)
    else None
  }

  method PublicEvent(row: Row) returns (r: Summary)
    ensures r.kind == PublicKind(row.kind)
    ensures forall key :: key in r.payload <==>
              key in Allowed(r.kind) && key in row.payload && Shown(key, row.payload[key]).Some?
    ensures forall key :: key in r.payload ==> Some(r.payload[key]) == Shown(key, row.payload[key])
    ensures GuardAccepts(r)
  {
    var kind := PublicKind(row.kind);
    var payload: map<string, Value> := map[];
    var keys := Allowed(kind);
    while keys != {}
      invariant keys <= Allowed(kind)
      invariant forall key :: key in payload <==>
                  key in Allowed(kind) - keys && key in row.payload && Shown(key, row.payload[key]).Some?
      invariant forall key :: key in payload ==> Some(payload[key]) == Shown(key, row.payload[key])
    {
      var key :| key in keys;
      keys := keys - {key};
      if key in row.payload {
        var value := row.payload[key];
        if key == "kind_name" && value.Text? && "mcp:" <= value.text {
          payload := payload[key := Text("mcp")];
        } else if Disclosed(key, value) {
          payload := payload[key := value];
        }
      }
    }
    r := Summary(kind, payload);
    forall key | key in payload
      ensures FieldAccepted(key, payload[key])
    {
      ShownIsAccepted(kind, key, row.payload[key]);
    }
  }

  // -------------------------------------------------------- the browser side

  predicate FieldAccepted(key: string, value: Value) {
    match key
    case "status" => value.Text? && value.text in STATUSES
    case "previous" => value.Text? && value.text in STATUSES
    case "stage" => value.Text? && value.text in STAGES
    case "kind_name" => value.Text? && value.text in CALL_KINDS + {"mcp"}
    case "decision" => value.Text?
    case "enabled" => value.Flag?
    case "sequence" => value.Number? && 0 <= value.number <= MAX_CURSOR
    case "version" => value.Number? && 0 <= value.number <= MAX_CURSOR
    case "project_version" => value.Number? && 0 <= value.number <= MAX_CURSOR
    case _ => false
  }

  predicate GuardAccepts(s: Summary) {
    && s.kind in KINDS + {"other"}
    && forall key :: key in s.payload ==> FieldAccepted(key, s.payload[key])
  }

  /** Nothing the server discloses is refused by the browser, for any stored row. */
  lemma ShownIsAccepted(kind: string, key: string, value: Value)
    requires key in Allowed(kind) && Shown(key, value).Some?
    ensures FieldAccepted(key, Shown(key, value).value)
  {
    assert key in {"status", "stage", "sequence", "version", "previous", "kind_name", "decision",
                   "enabled", "project_version"};
  }

  /** The fields a browser may see, kind by kind; of every other kind it sees no field. */
  lemma FieldsAreAllowedExactlyWhen(kind: string, key: string)
    ensures key in Allowed(kind) <==>
              || (key == "status" && kind in {"checkpoint_saved", "pause", "resume", "cancel"})
              || (key == "stage" && kind in {"checkpoint_saved", "unit_started"})
              || (key == "sequence" && kind == "checkpoint_saved") || (key == "version" && kind == "unit_started")
              || (key == "previous" && kind == "claimed") || (key == "decision" && kind == "approval_decided")
              || (key == "kind_name" && kind in {"call_started", "call_finished"})
              || (key == "enabled" && kind == "memory_enabled_changed")
              || (key == "project_version" && kind == "memory_retrieved")
  {
  }

  /** Which values are shown: listed words, flags and numbers in their own fields, and no name of an internal tool. */
  lemma ValuesAreShownExactlyWhen(key: string, value: Value)
    ensures var shown := Shown(key, value);
            var tool := key == "kind_name" && value.Text? && "mcp:" <= value.text;
            && (tool ==> shown == Some(Text("mcp")))
            && (!tool && shown.Some? ==> shown.value == value)
            && (!tool ==>
                  (shown.Some? <==>
                    || (value.Text? && key in {"status", "previous"} && value.text in STATUSES)
                    || (value.Text? && key == "stage" && value.text in STAGES)
                    || (value.Text? && key == "kind_name" && value.text in CALL_KINDS)
                    || (value.Text? && key == "decision" && value.text in {"approve", "reject", "modify"})
                    || (value.Flag? && key == "enabled")
                    || (value.Number? && key in {"sequence", "version", "project_version"}
                        && 0 <= value.number <= 9007199254740991)))
  {
  }
}
