/** The entities of the correlation engine.  Times and durations are nanoseconds. */
module Domain {

  const SECOND: int := 1_000_000_000
  const MINUTE: int := 60 * SECOND
  const HOUR: int := 60 * MINUTE

  /** How long events are retained, and how far back an evaluation looks. */
  const BUFFER_WINDOW: int := 5 * MINUTE
  /** Cap on the events stored per (tenant, event type) key. */
  const MAX_BUFFER_PER_KEY: nat := 1000
  /** Capacity of the internal dispatch channel. */
  const CHANNEL_CAPACITY: nat := 512
  /** Age beyond which the cleaner drops a dedup cache entry. */
  const CACHE_RETENTION: int := HOUR

  /** A NormalizedEvent; `rawData` maps a raw field to its printed value. */
  datatype Event = Event(
    id: string,
    tenant: string,
    agent: string,
    source: string,
    etype: string,
    severity: int,
    ts: int,
    title: string,
    description: string,
    indicators: seq<string>,
    tactic: string,
    technique: string,
    rawData: map<string, string>,
    fingerprint: string)

  datatype Condition = Condition(
    source: string,
    etype: string,
    fieldMatch: map<string, string>,
    minCount: int)

  datatype Rule = Rule(
    id: string,
    name: string,
    description: string,
    severity: int,
    window: int,
    conditions: seq<Condition>,
    tactic: string,
    technique: string,
    threshold: int)

  /** Incident identifiers are the successive draws of the UUID supply, here numbered. */
  datatype Incident = Incident(
    id: nat,
    tenant: string,
    title: string,
    description: string,
    severity: int,
    status: string,
    events: seq<Event>,
    createdAt: int,
    updatedAt: int,
    fingerprint: string,
    theHiveId: string,
    tactic: string,
    technique: string,
    ruleId: string,
    ruleName: string)

  function Ids(s: seq<Event>): set<string> {
    if |s| == 0 then {}
    else Ids(s[..|s| - 1]) + {s[|s| - 1].id}
  }

  lemma {:induction false} IdsContain(s: seq<Event>)
    ensures forall e :: e in s ==> e.id in Ids(s)
  {
    if |s| != 0 {
      IdsContain(s[..|s| - 1]);
    }
  }

  lemma {:induction false} IdWitness(s: seq<Event>, id: string) returns (e: Event)
    requires id in Ids(s)
    ensures e in s && e.id == id
  {
    var n := |s| - 1;
    if s[n].id == id {
      e := s[n];
    } else {
      e := IdWitness(s[..n], id);
    }
  }

  lemma IdsSnoc(s: seq<Event>, e: Event)
    ensures Ids(s + [e]) == Ids(s) + {e.id}
  {
    assert (s + [e])[..|s|] == s;
  }

  /** `ev.Timestamp.After(cutoff)`. */
  function FreshAfter(cutoff: int): Event -> bool {
    (e: Event) => e.ts > cutoff
  }

  function OfType(etype: string): Event -> bool {
    (e: Event) => e.etype == etype
  }
}
