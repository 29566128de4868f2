/** The registry of parsed containers (internal/discovery/discovery.go:139-227, 288-394). */
module Discovery {
  import opened Common
  import opened GoStrings
  import Retention

  type Labels = map<string, string>

  /** What ContainerInspect reports. */
  datatype Container = Container(id: string, name: string, labels: Labels)

  /** A Docker event; `inspected` is the answer of the inspect call it would trigger, None on error. */
  datatype Message = Message(eventType: string, action: string, id: string, inspected: Option<Container>)

  type Registry = map<string, Spec>

  const TYPES := {"postgres", "mysql", "mongodb", "redis"}

  function GetLabel(labels: Labels, key: string, default: string): string {
    if key in labels then TrimSpace(labels[key]) else default
  }

  function TrimLeadingSlash(name: string): string {
    if "/" <= name then name[1..] else name
  }

  /** validateLabelValues. */
  predicate ValidValues(spec: Spec) {
    spec.dest in {"", "local", "remote"} && spec.dbType in TYPES && FieldCount(spec.cron) >= 5
  }

  /** The spec parseLabels builds and then validates. */
  function SpecOf(parse: Retention.DurationParser, c: Container): Spec {
    var l := c.labels;
    Spec(true, ToLower(GetLabel(l, "backup.type", "")), GetLabel(l, "backup.conn", ""),
         GetLabel(l, "backup.database", ""), GetLabel(l, "backup.cron", ""),
         ToLower(GetLabel(l, "backup.dest", "local")), GetLabel(l, "backup.prefix", ""),
         GetLabel(l, "backup.webhook", ""), Retention.ParseLabel(parse, GetLabel(l, "backup.retention", "")),
         c.id, TrimLeadingSlash(c.name))
  }

  function ParseLabels(parse: Retention.DurationParser, c: Container): Option<Spec> {
    var l := c.labels;
    if GetLabel(l, "backup.enabled", "") != "true" then None
    else if GetLabel(l, "backup.cron", "") == "" then None
    else if GetLabel(l, "backup.type", "") == "" then None
    else if GetLabel(l, "backup.conn", "") == "" && ToLower(GetLabel(l, "backup.type", "")) != "redis" then None
    else if ValidValues(SpecOf(parse, c)) then Some(SpecOf(parse, c))
    else None
  }

  class Watcher {
    const parse: Retention.DurationParser
    var registry: Registry

    constructor (parse: Retention.DurationParser)
      ensures this.parse == parse && registry == map[]
    {
      this.parse := parse;
      registry := map[];
    }

    method HandleEvent(m: Message)
      modifies this
      ensures registry == After(parse, old(registry), m)
      ensures EventEffect(parse, old(registry), m, registry)
    {
      EventEffectOfAfter(parse, registry, m);
      if m.eventType != "container" {
        return;
      }
      if m.action == "start" || m.action == "create" || m.action == "update" {
        if m.inspected.None? {
          return;
        }
        ParseAndRegister(m.inspected.value);
      } else if m.action == "destroy" || m.action == "die" || m.action == "kill" || m.action == "stop" {
        if m.id in registry {
          registry := registry - {m.id};
        }
      }
    }

    method ParseAndRegister(c: Container)
      modifies this
      ensures registry == Effect(old(registry), c.id, Classify(parse, c))
      ensures InspectEffect(parse, old(registry), c, registry)
    {
      InspectEffectOfClassify(parse, registry, c);
      var spec := ParseLabels(parse, c);
      if spec.None? {
        if "backup.enabled" in c.labels {
          var enabledStr := c.labels["backup.enabled"];
          if enabledStr == "false" {
            if c.id in registry {
              registry := registry - {c.id};
            }
          } else if enabledStr != "true" {
            if c.id in registry {
              registry := registry - {c.id};
            }
          }
        } else if c.id in registry {
          registry := registry - {c.id};
        }
        return;
      }
      registry := registry[c.id := spec.value];
    }

    method GetRegistry() returns (copy: Registry)
      ensures copy == registry
    {
      copy := map[];
      var todo := registry.Keys;
      while todo != {}
        invariant todo <= registry.Keys
        invariant copy == registry - todo
      {
        var k :| k in todo;
        copy := copy[k := registry[k]];
        todo := todo - {k};
      }
    }
  }

  // ---- what a message does to the registry ----

  datatype Change = Keep | Put(spec: Spec) | Erase

  /** By the code: the parser trims the enabled label, the fallback compares it untrimmed. */
  function Classify(parse: Retention.DurationParser, c: Container): Change {
    var spec := ParseLabels(parse, c);
    if spec.Some? then Put(spec.value)
    else if "backup.enabled" in c.labels && c.labels["backup.enabled"] == "true" then Keep
    else Erase
  }

  function Effect(r: Registry, id: string, change: Change): Registry {
    match change
    case Keep => r
    case Put(spec) => r[id := spec]
    case Erase => r - {id}
  }

  /** Whom a message is about, and what it does to that container's spec. */
  function Meaning(parse: Retention.DurationParser, m: Message): (string, Change) {
    if m.eventType == "container" && m.action in {"start", "create", "update"} && m.inspected.Some? then
      (m.inspected.value.id, Classify(parse, m.inspected.value))
    else if m.eventType == "container" && m.action in {"destroy", "die", "kill", "stop"} then (m.id, Erase)
    else (m.id, Keep)
  }

  function After(parse: Retention.DurationParser, r: Registry, m: Message): Registry {
    var (id, change) := Meaning(parse, m);
    Effect(r, id, change)
  }

  function AfterAll(parse: Retention.DurationParser, ms: seq<Message>): Registry {
    if ms == [] then map[] else After(parse, AfterAll(parse, ms[..|ms| - 1]), ms[|ms| - 1])
  }

  // ---- the effect of an event, in terms of the labels ----

  /** The labels, as written on the container, of which a backup is made. */
  predicate Accepted(l: Labels) {
    && "backup.enabled" in l && TrimSpace(l["backup.enabled"]) == "true"
    && "backup.type" in l && ToLower(TrimSpace(l["backup.type"])) in {"postgres", "mysql", "mongodb", "redis"}
    && "backup.cron" in l && |Fields(l["backup.cron"])| >= 5
    && ("backup.dest" in l ==> ToLower(TrimSpace(l["backup.dest"])) in {"", "local", "remote"})
    && (("backup.conn" in l && TrimSpace(l["backup.conn"]) != "") || ToLower(TrimSpace(l["backup.type"])) == "redis")
  }

  /** Every field of the spec comes from its own label, or from the container. */
  predicate FiledFrom(parse: Retention.DurationParser, c: Container, spec: Spec)
    requires "backup.type" in c.labels && "backup.cron" in c.labels
  {
    var l := c.labels;
    && spec.enabled && spec.containerID == c.id
    && (if "/" <= c.name then c.name == "/" + spec.containerName else spec.containerName == c.name)
    && spec.dbType == ToLower(TrimSpace(l["backup.type"]))
    && spec.cron == TrimSpace(l["backup.cron"])
    && spec.dest == (if "backup.dest" in l then ToLower(TrimSpace(l["backup.dest"])) else "local")
    && spec.conn == (if "backup.conn" in l then TrimSpace(l["backup.conn"]) else "")
    && spec.database == (if "backup.database" in l then TrimSpace(l["backup.database"]) else "")
    && spec.prefix == (if "backup.prefix" in l then TrimSpace(l["backup.prefix"]) else "")
    && spec.webhook == (if "backup.webhook" in l then TrimSpace(l["backup.webhook"]) else "")
    && spec.retention == (if "backup.retention" in l then Retention.ParseLabel(parse, l["backup.retention"]) else 0)
  }

  /** No other container has changed. */
  predicate SameElsewhere(r: Registry, q: Registry, id: string) {
    r - {id} == q - {id}
  }

  /** What an inspected container does to the registry: accepted labels, rejected ones, disabled ones. */
  predicate InspectEffect(parse: Retention.DurationParser, r: Registry, c: Container, q: Registry) {
    && SameElsewhere(r, q, c.id)
    && if Accepted(c.labels) then c.id in q && FiledFrom(parse, c, q[c.id])
       else if "backup.enabled" in c.labels && c.labels["backup.enabled"] == "true" then q == r
       else c.id !in q
  }

  /** What an event does. */
  predicate EventEffect(parse: Retention.DurationParser, r: Registry, m: Message, q: Registry) {
    if m.eventType == "container" && m.action in {"start", "create", "update"} && m.inspected.Some? then
      InspectEffect(parse, r, m.inspected.value, q)
    else if m.eventType == "container" && m.action in {"destroy", "die", "kill", "stop"} then
      SameElsewhere(r, q, m.id) && m.id !in q
    else q == r
  }

  /** A parse succeeds exactly on the accepted labels, whatever order the code checks them in. */
  lemma {:induction false} ParsesIff(parse: Retention.DurationParser, c: Container)
    ensures ParseLabels(parse, c).Some? <==> Accepted(c.labels)
  {
    assert ToLower("") == "" && ToLower("local") == "local";
    if "backup.cron" in c.labels {
      FieldsTrimmed(c.labels["backup.cron"]);
    }
  }

  lemma {:induction false} RetentionFiled(parse: Retention.DurationParser, l: Labels)
    ensures Retention.ParseLabel(parse, GetLabel(l, "backup.retention", "")) ==
      if "backup.retention" in l then Retention.ParseLabel(parse, l["backup.retention"]) else 0
  {
    if "backup.retention" in l {
      Retention.LabelTrimmed(parse, l["backup.retention"]);
    } else {
      assert TrimSpace("") == "";
    }
  }

  lemma {:induction false} SpecIsFiled(parse: Retention.DurationParser, c: Container)
    requires "backup.type" in c.labels && "backup.cron" in c.labels
    ensures FiledFrom(parse, c, SpecOf(parse, c))
  {
    RetentionFiled(parse, c.labels);
    DestFiled(c.labels);
  }

  lemma {:induction false} ParsedSpec(parse: Retention.DurationParser, c: Container)
    requires ParseLabels(parse, c).Some?
    ensures ParseLabels(parse, c).value == SpecOf(parse, c)
  {
  }

  lemma {:induction false} DestFiled(l: Labels)
    ensures ToLower(GetLabel(l, "backup.dest", "local")) ==
      if "backup.dest" in l then ToLower(TrimSpace(l["backup.dest"])) else "local"
  {
    assert ToLower("local") == "local";
  }

  lemma {:induction false} InspectEffectOfClassify(parse: Retention.DurationParser, r: Registry, c: Container)
    ensures InspectEffect(parse, r, c, Effect(r, c.id, Classify(parse, c)))
  {
    ParsesIff(parse, c);
    if Accepted(c.labels) {
      ParsedSpec(parse, c);
      SpecIsFiled(parse, c);
    }
  }

  lemma {:induction false} EventEffectOfAfter(parse: Retention.DurationParser, r: Registry, m: Message)
    ensures EventEffect(parse, r, m, After(parse, r, m))
  {
    if m.inspected.Some? {
      InspectEffectOfClassify(parse, r, m.inspected.value);
    }
  }

  // ---- one container's history ----

  function Meanings(parse: Retention.DurationParser, ms: seq<Message>): seq<(string, Change)> {
    if ms == [] then [] else Meanings(parse, ms[..|ms| - 1]) + [Meaning(parse, ms[|ms| - 1])]
  }

  /** The changes that concern this container, in order. */
  function Own(changes: seq<(string, Change)>, id: string): seq<Change> {
    if changes == [] then []
    else
      var k := |changes| - 1;
      Own(changes[..k], id) + if changes[k].0 == id then [changes[k].1] else []
  }

  /** The spec left by the last of them that is not Keep. */
  function LastSpec(own: seq<Change>): Option<Spec> {
    if own == [] then None
    else
      var k := |own| - 1;
      match own[k]
      case Keep => LastSpec(own[..k])
      case Put(spec) => Some(spec)
      case Erase => None
  }

  lemma {:induction false} OwnSnoc(own: seq<Change>, change: Change)
    ensures LastSpec(own + [change]) ==
      match change case Keep => LastSpec(own) case Put(spec) => Some(spec) case Erase => None
  {
    assert (own + [change])[..|own|] == own;
  }

  lemma {:induction false} EffectOn(r: Registry, id: string, change: Change, other: string)
    ensures var s := Effect(r, id, change);
      (if other in s then Some(s[other]) else None) ==
        if other != id || change.Keep? then (if other in r then Some(r[other]) else None)
        else if change.Put? then Some(change.spec) else None
  {
  }

  /** The registry depends, container by container, on its own messages only: the last one that counts wins. */
  lemma {:induction false} RegistryIsPerContainer(parse: Retention.DurationParser, ms: seq<Message>, id: string)
    ensures var r := AfterAll(parse, ms);
      LastSpec(Own(Meanings(parse, ms), id)) == if id in r then Some(r[id]) else None
    decreases |ms|
  {
    if ms != [] {
      var k := |ms| - 1;
      var (subject, change) := Meaning(parse, ms[k]);
      var before := Meanings(parse, ms[..k]);
      RegistryIsPerContainer(parse, ms[..k], id);
      OwnStep(before, subject, change, id);
      EffectOn(AfterAll(parse, ms[..k]), subject, change, id);
    }
  }

  lemma {:induction false} OwnStep(before: seq<(string, Change)>, subject: string, change: Change, id: string)
    ensures Own(before + [(subject, change)], id) == Own(before, id) + if subject == id then [change] else []
    ensures LastSpec(Own(before + [(subject, change)], id)) ==
      if subject != id || change.Keep? then LastSpec(Own(before, id))
      else if change.Put? then Some(change.spec) else None
  {
    assert (before + [(subject, change)])[..|before|] == before;
    OwnSnoc(Own(before, id), change);
    assert Own(before, id) + [] == Own(before, id);
  }

  // ---- what is ever registered ----

  /** What the rest of the agent may rely on. */
  predicate Valid(id: string, spec: Spec) {
    && spec.enabled && spec.containerID == id
    && ValidValues(spec)
    && (spec.conn != "" || spec.dbType == "redis")
    && ToLower(spec.dest) == spec.dest
  }

  lemma {:induction false} LowerTwice(s: string)
    ensures ToLower(ToLower(s)) == ToLower(s)
  {
  }

  /** Every spec ever in the registry is enabled, complete and valid, and filed under its own container. */
  lemma {:induction false} RegistryIsValid(parse: Retention.DurationParser, ms: seq<Message>)
    ensures forall id :: id in AfterAll(parse, ms) ==> Valid(id, AfterAll(parse, ms)[id])
    decreases |ms|
  {
    if ms != [] {
      var k := |ms| - 1;
      RegistryIsValid(parse, ms[..k]);
      if ms[k].inspected.Some? {
        LowerTwice(GetLabel(ms[k].inspected.value.labels, "backup.dest", "local"));
      }
    }
  }

  /**
   An enabled container whose other labels cannot be parsed keeps its previous spec if its raw
   label is exactly "true", and loses it if the same word carries white space, which the parser
   would have trimmed.
   */
  lemma {:induction false} BrokenLabels(parse: Retention.DurationParser, r: Registry, c: Container)
    requires ParseLabels(parse, c).None? && GetLabel(c.labels, "backup.enabled", "") == "true"
    ensures c.labels["backup.enabled"] == "true" ==> Effect(r, c.id, Classify(parse, c)) == r
    ensures c.labels["backup.enabled"] != "true" ==> c.id !in Effect(r, c.id, Classify(parse, c))
  {
  }
}
