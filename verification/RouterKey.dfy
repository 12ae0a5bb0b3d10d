/** Idempotency keys of exactly-once routers and the metadata that carries them
    (`router_idempotency_key`, `with_router_idempotency_meta` and
    `router_meta_idempotency_key` in `src/engine/mod.rs`). */
module RouterKey {
  import opened Common

  function Digit(d: nat): char
    requires d < 10
  {
    ('0' as nat + d) as char
  }

  /** A number in decimal. */
  function Decimal(n: nat): (s: string)
    ensures s != []
  {
    if n < 10 then [Digit(n)] else Decimal(n / 10) + [Digit(n % 10)]
  }

  /** Which router forwarded which record of which topic incarnation. */
  datatype Origin = Origin(router: string, topicId: nat, epoch: nat, s: nat)

  function Key(o: Origin): string {
    "router:" + o.router + ":" + Decimal(o.topicId) + ":" + Decimal(o.epoch) + ":" + Decimal(o.s)
  }

  // ---- decoding a number back -----------------------------------------------

  function DigitValue(c: char): nat {
    if '0' <= c <= '9' then c as nat - '0' as nat else 0
  }

  function Value(s: string): nat {
    if s == [] then 0 else Value(s[..|s| - 1]) * 10 + DigitValue(s[|s| - 1])
  }

  lemma {:induction false} DecimalRoundTrip(n: nat)
    ensures Value(Decimal(n)) == n
    ensures ':' !in Decimal(n)
  {
    if n < 10 {
      assert [Digit(n)][..0] == [];
    } else {
      DecimalRoundTrip(n / 10);
      assert Decimal(n)[..|Decimal(n)| - 1] == Decimal(n / 10);
    }
  }

  /** What follows the last colon is determined by the whole string. */
  lemma LastField(a: string, u: string, b: string, v: string)
    requires a + ":" + u == b + ":" + v && ':' !in u && ':' !in v
    ensures a == b && u == v
  {
    var x, y := a + ":" + u, b + ":" + v;
    assert x[|a|] == ':' && y[|b|] == ':';
    assert x[..|a|] == a && y[..|b|] == b && x[|a| + 1..] == u && y[|b| + 1..] == v;
  }

  lemma LastNumber(a: string, m: nat, b: string, n: nat)
    requires a + ":" + Decimal(m) == b + ":" + Decimal(n)
    ensures a == b && m == n
  {
    DecimalRoundTrip(m);
    DecimalRoundTrip(n);
    LastField(a, Decimal(m), b, Decimal(n));
  }

  /** Keys tell origins apart, even though a router name may itself contain colons. */
  lemma KeyIsInjective(o: Origin, p: Origin)
    requires Key(o) == Key(p)
    ensures o == p
  {
    var a, b := "router:" + o.router, "router:" + p.router;
    var a1, b1 := a + ":" + Decimal(o.topicId), b + ":" + Decimal(p.topicId);
    var a2, b2 := a1 + ":" + Decimal(o.epoch), b1 + ":" + Decimal(p.epoch);
    LastNumber(a2, o.s, b2, p.s);
    LastNumber(a1, o.epoch, b1, p.epoch);
    LastNumber(a, o.topicId, b, p.topicId);
    assert a[7..] == o.router && b[7..] == p.router;
  }

  // ---- the metadata ---------------------------------------------------------

  const MAX_META_KEYS: nat := 64
  const ROUTER_META := "_topics_router"
  const ORIGINAL_META := "_topics_original_meta"
  const IDEMPOTENCY_KEY := "idempotency_key"

  datatype Json = Text(text: string) | Number(n: nat) | Obj(fields: map<string, Json>) | Other(raw: string)

  function RouterMeta(o: Origin, sourceTopic: string): Json {
    Obj(map[IDEMPOTENCY_KEY := Text(Key(o)), "router" := Text(o.router), "source_topic" := Text(sourceTopic),
            "source_topic_id" := Number(o.topicId), "source_epoch" := Number(o.epoch), "source_seq" := Number(o.s)])
  }

  /** The record's metadata with the router's entry set; an object that is full, and anything
      that is not an object, is wrapped. */
  function WithRouterMeta(meta: Option<Json>, o: Origin, sourceTopic: string): Json {
    var rm := RouterMeta(o, sourceTopic);
    match meta
    case None => Obj(map[ROUTER_META := rm])
    case Some(Obj(fields)) =>
      if ROUTER_META in fields || |fields| < MAX_META_KEYS then Obj(fields[ROUTER_META := rm])
      else Obj(map[ROUTER_META := rm, ORIGINAL_META := Obj(fields)])
    case Some(v) => Obj(map[ROUTER_META := rm, ORIGINAL_META := v])
  }

  /** The idempotency key a record's metadata carries, if any. */
  function MetaKey(meta: Option<Json>): Option<string> {
    if meta.Some? && meta.value.Obj? && ROUTER_META in meta.value.fields then
      var rm := meta.value.fields[ROUTER_META];
      if rm.Obj? && IDEMPOTENCY_KEY in rm.fields
          && rm.fields[IDEMPOTENCY_KEY].Text? then Some(rm.fields[IDEMPOTENCY_KEY].text)
      else None
    else None
  }

  /** The router's entry says where the record came from. */
  predicate Provenance(o: Origin, sourceTopic: string, entry: Json) {
    && entry.Obj? && {"router", "source_topic", "source_topic_id", "source_epoch", "source_seq"} <= entry.fields.Keys
    && entry.fields["router"] == Text(o.router) && entry.fields["source_topic"] == Text(sourceTopic)
    && entry.fields["source_topic_id"] == Number(o.topicId) && entry.fields["source_epoch"] == Number(o.epoch)
    && entry.fields["source_seq"] == Number(o.s)
  }

  /** A forwarded record carries its own origin's key, whatever metadata it had before, and
      the earlier metadata is still there. */
  lemma MetaKeyRoundTrip(meta: Option<Json>, o: Origin, sourceTopic: string)
    ensures var m := WithRouterMeta(meta, o, sourceTopic);
            && MetaKey(Some(m)) == Some(Key(o)) && m.Obj?
            && (meta.Some? ==>
                  if meta.value.Obj? && (ROUTER_META in meta.value.fields || |meta.value.fields| < MAX_META_KEYS)
                  then m.fields - {ROUTER_META} == meta.value.fields - {ROUTER_META}
                  else ORIGINAL_META in m.fields && m.fields[ORIGINAL_META] == meta.value)
            && ROUTER_META in m.fields && Provenance(o, sourceTopic, m.fields[ROUTER_META])
  {
    var m := WithRouterMeta(meta, o, sourceTopic);
    assert m.fields[ROUTER_META] == RouterMeta(o, sourceTopic);
    assert ORIGINAL_META != ROUTER_META;
  }
}
