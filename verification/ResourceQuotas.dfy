/** The stored quota object: reading it, telling whether it needs a patch, and the merge patch that rewrites it. */
module ResourceQuotas {
  import opened Quantities

  /** A quantity is counted in thousandths of its unit (millicores, milli-bytes). */
  type Quantity = int

  type ResourceList = map<string, Quantity>

  const CPU := "cpu"
  const MEMORY := "memory"
  const LIMITS_CPU := "limits.cpu"
  const LIMITS_MEMORY := "limits.memory"
  const REQUESTS_CPU := "requests.cpu"
  const REQUESTS_MEMORY := "requests.memory"

  const MILLI_PER_MEGA := 1_000_000_000

  /** Scaled values round up to the next whole unit of the scale. */
  function Milli(q: Quantity): int { q }

  function Mega(q: Quantity): int { -((-q) / MILLI_PER_MEGA) }

  function Name(d: Dim): string {
    match d
    case LimitsCpu => LIMITS_CPU
    case LimitsMemory => LIMITS_MEMORY
    case RequestsCpu => REQUESTS_CPU
    case RequestsMemory => REQUESTS_MEMORY
  }

  predicate IsCpu(d: Dim) { d.LimitsCpu? || d.RequestsCpu? }

  function LegacyName(d: Dim): string { if IsCpu(d) then CPU else MEMORY }

  function Lookup(list: ResourceList, name: string): Quantity {
    if name in list then list[name] else 0
  }

  /** The explicit key wins over the legacy aggregate alias; a missing key reads as zero. */
  function ValueOf(list: ResourceList, d: Dim): int {
    var q := if Name(d) in list then list[Name(d)] else Lookup(list, LegacyName(d));
    if IsCpu(d) then Milli(q) else Mega(q)
  }

  function Read(list: ResourceList): Amounts {
    Amounts(ValueOf(list, LimitsCpu), ValueOf(list, LimitsMemory),
            ValueOf(list, RequestsCpu), ValueOf(list, RequestsMemory), 0)
  }

  predicate SameFour(a: Amounts, b: Amounts) {
    a.cpu == b.cpu && a.memory == b.memory && a.requestsCpu == b.requestsCpu && a.requestsMemory == b.requestsMemory
  }

  /** A legacy alias next to an explicit key of the same resource. */
  predicate HasStaleAlias(list: ResourceList) {
    || (CPU in list && (REQUESTS_CPU in list || LIMITS_CPU in list))
    || (MEMORY in list && (REQUESTS_MEMORY in list || LIMITS_MEMORY in list))
  }

  predicate DiffersFrom(desired: Amounts, hard: ResourceList) {
    HasStaleAlias(hard) || !SameFour(desired, Read(hard))
  }

  predicate IsScaleDown(desired: Amounts, hard: ResourceList) {
    Exceeds(Read(hard), desired)
  }

  /** JSON documents, as far as a merge patch looks into them. */
  datatype Json = JNull | JQuantity(q: Quantity) | JText(text: string) | JObject(members: map<string, Json>)

  /** The algorithm of section 2 of RFC 7396. */
  function MergePatch(target: Json, patch: Json): Json
    decreases patch
  {
    if patch.JObject? then
      var base := if target.JObject? then target.members else map[];
      JObject(map k | k in base.Keys + patch.members.Keys && !(k in patch.members && patch.members[k] == JNull)
                :: if k in patch.members
                   then MergePatch(if k in base then base[k] else JNull, patch.members[k]) else base[k])
    else
      patch
  }

  function MilliQuantity(n: int): Json { JQuantity(n) }

  function MegaQuantity(n: int): Json { JQuantity(n * MILLI_PER_MEGA) }

  /** The members of `spec.hard` in the patch the resize call sends; null drops the legacy aliases. */
  function HardPatch(res: Amounts): map<string, Json> {
    map[CPU := JNull, MEMORY := JNull,
        REQUESTS_CPU := MilliQuantity(res.requestsCpu), LIMITS_CPU := MilliQuantity(res.cpu),
        REQUESTS_MEMORY := MegaQuantity(res.requestsMemory), LIMITS_MEMORY := MegaQuantity(res.memory)]
  }

  function ResourceQuotaPatch(res: Amounts): Json {
    JObject(map["spec" := JObject(map["hard" := JObject(HardPatch(res))])])
  }

  function Encoded(hard: ResourceList): map<string, Json> {
    map k | k in hard :: JQuantity(hard[k])
  }

  /** A quota document: `spec.hard` holds the given list; `rest` and `spec` are its other members. */
  function Document(rest: map<string, Json>, spec: map<string, Json>, hard: ResourceList): Json {
    JObject(rest["spec" := JObject(spec["hard" := JObject(Encoded(hard))])])
  }

  function Patched(hard: ResourceList, res: Amounts): ResourceList {
    (hard - {CPU, MEMORY})[REQUESTS_CPU := res.requestsCpu][LIMITS_CPU := res.cpu]
      [REQUESTS_MEMORY := res.requestsMemory * MILLI_PER_MEGA][LIMITS_MEMORY := res.memory * MILLI_PER_MEGA]
  }

  /** A patch with a single member rewrites that member and keeps the others. */
  lemma SingleMemberPatch(base: map<string, Json>, name: string, patch: Json)
    requires patch != JNull
    ensures MergePatch(JObject(base), JObject(map[name := patch]))
         == JObject(base[name := MergePatch(if name in base then base[name] else JNull, patch)])
  {
    var members := map[name := patch];
    var m := MergePatch(JObject(base), JObject(members)).members;
    assert m.Keys == base.Keys + {name};
    forall k | k in m ensures m[k] == base[name := MergePatch(if name in base then base[name] else JNull, patch)][k] {
      assert k in members <==> k == name;
    }
  }

  lemma LeafReplaces(target: Json, patch: Json)
    requires !patch.JObject?
    ensures MergePatch(target, patch) == patch
  {}

  ghost predicate FlatPatch(patch: map<string, Json>) {
    forall k :: k in patch ==> !patch[k].JObject?
  }

  /** A patch of plain values removes the null members and writes the others. */
  lemma FlatPatchRewrites(base: map<string, Json>, patch: map<string, Json>)
    requires FlatPatch(patch)
    ensures MergePatch(JObject(base), JObject(patch))
         == JObject(map k | k in base.Keys + patch.Keys && !(k in patch && patch[k] == JNull)
                      :: if k in patch then patch[k] else base[k])
  {
    var m := MergePatch(JObject(base), JObject(patch)).members;
    forall k | k in m && k in patch ensures m[k] == patch[k] {
      var target := if k in base then base[k] else JNull;
      LeafReplaces(target, patch[k]);
      assert m[k] == MergePatch(target, patch[k]);
    }
  }

  lemma HardPatchRewrites(hard: ResourceList, res: Amounts)
    ensures MergePatch(JObject(Encoded(hard)), JObject(HardPatch(res))) == JObject(Encoded(Patched(hard, res)))
  {
    var patch := HardPatch(res);
    FlatPatchRewrites(Encoded(hard), patch);
    var m := MergePatch(JObject(Encoded(hard)), JObject(patch)).members;
    KeysDiffer();
    var after := Encoded(Patched(hard, res));
    assert m.Keys == after.Keys;
    forall k | k in m ensures m[k] == after[k] {}
    assert m == after;
  }

  lemma KeysDiffer()
    ensures CPU !in {MEMORY, LIMITS_CPU, LIMITS_MEMORY, REQUESTS_CPU, REQUESTS_MEMORY}
    ensures MEMORY !in {LIMITS_CPU, LIMITS_MEMORY, REQUESTS_CPU, REQUESTS_MEMORY}
    ensures LIMITS_CPU !in {LIMITS_MEMORY, REQUESTS_CPU, REQUESTS_MEMORY}
    ensures LIMITS_MEMORY !in {REQUESTS_CPU, REQUESTS_MEMORY} && REQUESTS_CPU != REQUESTS_MEMORY
  {
    assert |CPU| == 3 && |MEMORY| == 6 && |LIMITS_CPU| == 10 && |LIMITS_MEMORY| == 13;
    assert |REQUESTS_CPU| == 12 && |REQUESTS_MEMORY| == 15;
  }

  /** A patch of one member two levels down rewrites that member only. */
  lemma NestedPatch(rest: map<string, Json>, spec: map<string, Json>, before: Json, patch: Json)
    requires patch.JObject?
    ensures MergePatch(JObject(rest["spec" := JObject(spec["hard" := before])]),
                       JObject(map["spec" := JObject(map["hard" := patch])]))
         == JObject(rest["spec" := JObject(spec["hard" := MergePatch(before, patch)])])
  {
    var after := MergePatch(before, patch);
    SingleMemberPatch(spec["hard" := before], "hard", patch);
    assert spec["hard" := before]["hard" := after] == spec["hard" := after];
    var outer := rest["spec" := JObject(spec["hard" := before])];
    SingleMemberPatch(outer, "spec", JObject(map["hard" := patch]));
    assert outer["spec" := JObject(spec["hard" := after])] == rest["spec" := JObject(spec["hard" := after])];
  }

  /** Applying the generated patch rewrites exactly `spec.hard`, whatever else the document holds. */
  lemma PatchRewritesHard(rest: map<string, Json>, spec: map<string, Json>, hard: ResourceList, res: Amounts)
    ensures MergePatch(Document(rest, spec, hard), ResourceQuotaPatch(res)) == Document(rest, spec, Patched(hard, res))
  {
    HardPatchRewrites(hard, res);
    NestedPatch(rest, spec, JObject(Encoded(hard)), JObject(HardPatch(res)));
  }

  /** After the patch the quota reads back as exactly the desired four values, no alias is left,
      so no further patch is wanted; keys the controller does not manage are untouched. */
  lemma PatchRoundTrip(hard: ResourceList, res: Amounts)
    ensures Read(Patched(hard, res)) == res.(storage := 0)
    ensures !DiffersFrom(res, Patched(hard, res))
    ensures forall k :: k !in {CPU, MEMORY, LIMITS_CPU, LIMITS_MEMORY, REQUESTS_CPU, REQUESTS_MEMORY} ==>
              (k in hard <==> k in Patched(hard, res)) && (k in hard ==> Patched(hard, res)[k] == hard[k])
  {
    var p := Patched(hard, res);
    assert |CPU| == 3 && |MEMORY| == 6 && |LIMITS_CPU| == 10 && |LIMITS_MEMORY| == 13;
    assert |REQUESTS_CPU| == 12 && |REQUESTS_MEMORY| == 15;
    assert p[LIMITS_MEMORY] == res.memory * MILLI_PER_MEGA && p[REQUESTS_MEMORY] == res.requestsMemory * MILLI_PER_MEGA;
    assert Mega(res.memory * MILLI_PER_MEGA) == res.memory;
    assert Mega(res.requestsMemory * MILLI_PER_MEGA) == res.requestsMemory;
  }

  /** No patch is wanted exactly when the stored values already are the desired ones and no alias lingers. */
  lemma NoPatchWantedMeansNothingToDo(hard: ResourceList, res: Amounts)
    ensures !DiffersFrom(res, hard) <==> (!HasStaleAlias(hard) && forall d: Dim :: res.At(d) == Read(hard).At(d))
  {
    if !SameFour(res, Read(hard)) {
      assert res.At(LimitsCpu) != Read(hard).At(LimitsCpu) || res.At(LimitsMemory) != Read(hard).At(LimitsMemory)
          || res.At(RequestsCpu) != Read(hard).At(RequestsCpu)
             || res.At(RequestsMemory) != Read(hard).At(RequestsMemory);
    }
  }

  // ----- Keys and units, spelled out -----

  /** CPU counts in thousandths; memory rounds up to the next million bytes. */
  lemma UnitsRoundUp(q: Quantity)
    ensures Milli(q) == q
    ensures q <= Mega(q) * 1_000_000_000 < q + 1_000_000_000
  {}

  /** Where a quantity of the given resource is read from. */
  predicate IsReadAs(list: ResourceList, name: string, alias: string, q: Quantity) {
    if name in list then q == list[name] else if alias in list then q == list[alias] else q == 0
  }

  /** An explicit key wins over the alias, the alias stands in for a missing key, and with neither it is zero. */
  lemma ListReadsAs(list: ResourceList, q: Quantity)
    ensures IsReadAs(list, "limits.cpu", "cpu", q) ==> ValueOf(list, LimitsCpu) == q
    ensures IsReadAs(list, "requests.cpu", "cpu", q) ==> ValueOf(list, RequestsCpu) == q
    ensures IsReadAs(list, "limits.memory", "memory", q) ==>
              q <= ValueOf(list, LimitsMemory) * 1_000_000_000 < q + 1_000_000_000
    ensures IsReadAs(list, "requests.memory", "memory", q) ==>
              q <= ValueOf(list, RequestsMemory) * 1_000_000_000 < q + 1_000_000_000
    ensures Read(list).cpu == ValueOf(list, LimitsCpu) && Read(list).requestsCpu == ValueOf(list, RequestsCpu)
    ensures Read(list).memory == ValueOf(list, LimitsMemory)
            && Read(list).requestsMemory == ValueOf(list, RequestsMemory)
  {
    UnitsRoundUp(q);
  }

  /** A patch is wanted if and only if a value differs or an alias stands beside an explicit key of its resource. */
  lemma PatchWantedExactly(list: ResourceList, res: Amounts)
    ensures DiffersFrom(res, list) <==>
              || ("cpu" in list && ("requests.cpu" in list || "limits.cpu" in list))
              || ("memory" in list && ("requests.memory" in list || "limits.memory" in list))
              || res.cpu != ValueOf(list, LimitsCpu) || res.requestsCpu != ValueOf(list, RequestsCpu)
              || res.memory != ValueOf(list, LimitsMemory) || res.requestsMemory != ValueOf(list, RequestsMemory)
  {}

  /** A change counts as scaling down if and only if some value shrinks. */
  lemma ScaleDownExactly(list: ResourceList, res: Amounts)
    ensures IsScaleDown(res, list) <==>
              || res.cpu < ValueOf(list, LimitsCpu) || res.requestsCpu < ValueOf(list, RequestsCpu)
              || res.memory < ValueOf(list, LimitsMemory) || res.requestsMemory < ValueOf(list, RequestsMemory)
  {}
}
