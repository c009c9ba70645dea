/** Normalised evidence events, as far as authority and approval read them. */
module Evidence {
  import opened Wrappers

  datatype Kind =
    | AttackDelivery | ProtocolDelivery | RetrievalDelivery | SideEffectObservation
    | ToolRequest | ToolResult | Handoff | ApprovalRequest | Approval | ApprovalDecision
    | Guardrail | StateObservation | Output | PolicyViolation | SemanticJudgment | EvaluationError | RuntimeError

  datatype ResourceIdentifier = ResourceIdentifier(domain: string, components: seq<string>)

  datatype Decision = Approve | Reject

  type Digest = string

  datatype Receipt = Receipt(
    scenario: Digest, decision: Decision, agent: string, tool: string, callId: string, arguments: Digest,
    resource: Option<ResourceIdentifier>, authorityEpoch: nat, authorityPath: Digest, requestSequence: nat)

  /** A payload value. `Resource` and `Intent` are the JSON material that parses as a canonical resource
      identifier and as a well-formed approval receipt; every other JSON value is `Other`. */
  datatype Value = Text(text: string) | Flag(flag: bool) | Resource(resource: ResourceIdentifier)
      | Intent(receipt: Receipt) | Other(tag: nat)

  type Payload = map<string, Value>

  datatype Event = Event(sequence: nat, kind: Kind, source: string, payload: Payload, critical: bool)

  function Get(p: Payload, key: string): Option<Value> {
    if key in p then Some(p[key]) else None
  }

  predicate Has(e: Event, key: string, text: string) {
    Get(e.payload, key) == Some(Text(text))
  }

  /** validate_event_sequence: sequences count up from zero. */
  predicate Contiguous(events: seq<Event>) {
    forall i | 0 <= i < |events| :: events[i].sequence == i
  }

  /** The whitespace of Python's str.strip. */
  predicate IsSpace(c: char) {
    || c in "\t\n\r "
    || c in ['\U{000B}', '\U{000C}', '\U{0085}', '\U{00A0}', '\U{1680}', '\U{2028}', '\U{2029}', '\U{202F}',
             '\U{205F}', '\U{3000}']
    || '\U{001C}' <= c <= '\U{001F}' || '\U{2000}' <= c <= '\U{200A}'
  }

  /** s == s.strip() */
  predicate Trimmed(s: string) {
    s != "" ==> !IsSpace(s[0]) && !IsSpace(s[|s| - 1])
  }
}
