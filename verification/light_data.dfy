/**
 * `prepare_light_data_system` (core/standard/light_data.rs): with an active camera, builds
 * the frame's light list (every directional light, then every spot light, then six records
 * per point light, one per cube face, then the ambient light if there is one), hands it to
 * the lighting manager to be numbered, and publishes the result. The lights come from
 * queries, given here as sequences in query order; the matrices each record carries are
 * kept opaque, tagged with the light's kind, its position in its query and the cube face.
 */
module LightData {
  import opened Wrappers
  import opened Lights
  import opened LightManager

  /** Records `[base, base + |dirs|)` are the directional lights, in order. */
  ghost predicate DirectionalPart(lights: seq<Light>, base: nat, dirs: seq<DirectionalLight>) {
    base + |dirs| <= |lights|
    && forall i :: 0 <= i < |dirs| ==> lights[base + i] == DirectionalAsLight(dirs[i], Computed(Directional, i, 0))
  }

  /** Records `[base, base + |spots|)` are the spot lights, in order. */
  ghost predicate SpotPart(lights: seq<Light>, base: nat, spots: seq<SpotLight>) {
    base + |spots| <= |lights|
    && forall i :: 0 <= i < |spots| ==> lights[base + i] == SpotAsLight(spots[i], Computed(Spot, i, 0))
  }

  /** Records `[base, base + 6n)` are the cube faces of the first `n` point lights: face `f` of light `j` is record `base + 6j + f`. */
  ghost predicate PointPart(lights: seq<Light>, base: nat, points: seq<PointLight>, n: nat) {
    base + 6 * n <= |lights| && n <= |points|
    && forall j, f :: 0 <= j < n && 0 <= f < 6 ==>
         lights[base + 6 * j + f] == PointAsLight(points[j], Computed(Point, j, f))
  }

  /** The kind of each record `as_light` produces. */
  lemma RecordKinds(dl: DirectionalLight, sl: SpotLight, pl: PointLight, al: AmbientLight, m: Matrix)
    ensures KindOf(DirectionalAsLight(dl, m)) == DirectionalMap
    ensures KindOf(SpotAsLight(sl, m)) == SpotMap
    ensures KindOf(PointAsLight(pl, m)) == PointMap
    ensures KindOf(AmbientAsLight(al, m)) == NoMap
  {
    assert Has(DirectionalAsLight(dl, m).flags, Directional);
    var s := SpotAsLight(sl, m).flags;
    assert !Has(s, Directional) && !Has(s, Point) && Has(s, Spot);
    var p := PointAsLight(pl, m).flags;
    assert !Has(p, Directional) && Has(p, Point);
    var a := AmbientAsLight(al, m).flags;
    assert !Has(a, Directional) && !Has(a, Point) && !Has(a, Spot);
  }

  /** The list the system assembles before numbering, described record by record. */
  ghost predicate Assembled(lights: seq<Light>, dirs: seq<DirectionalLight>, spots: seq<SpotLight>,
                            points: seq<PointLight>, ambient: Option<AmbientLight>)
  {
    var d, s, p := |dirs|, |spots|, |points|;
    |lights| == d + s + 6 * p + (if ambient.Some? then 1 else 0)
    && DirectionalPart(lights, 0, dirs)
    && SpotPart(lights, d, spots)
    && PointPart(lights, d + s, points, p)
    && (ambient.Some? ==> lights[|lights| - 1] == AmbientAsLight(ambient.value, Identity))
  }

  /** The directional loop: one record per light, pushed in order. */
  method PushDirectional(lights: seq<Light>, dirs: seq<DirectionalLight>) returns (r: seq<Light>)
    ensures |r| == |lights| + |dirs| && r[..|lights|] == lights
    ensures DirectionalPart(r, |lights|, dirs)
  {
    r := lights;
    for i := 0 to |dirs|
      invariant |r| == |lights| + i && r[..|lights|] == lights
      invariant forall k :: 0 <= k < i ==> r[|lights| + k] == DirectionalAsLight(dirs[k], Computed(Directional, k, 0))
    {
      r := r + [DirectionalAsLight(dirs[i], Computed(Directional, i, 0))];
    }
  }

  /** The spot loop: one record per light, pushed in order. */
  method PushSpots(lights: seq<Light>, spots: seq<SpotLight>) returns (r: seq<Light>)
    ensures |r| == |lights| + |spots| && r[..|lights|] == lights
    ensures SpotPart(r, |lights|, spots)
  {
    r := lights;
    for i := 0 to |spots|
      invariant |r| == |lights| + i && r[..|lights|] == lights
      invariant forall k :: 0 <= k < i ==> r[|lights| + k] == SpotAsLight(spots[k], Computed(Spot, k, 0))
    {
      r := r + [SpotAsLight(spots[i], Computed(Spot, i, 0))];
    }
  }

  /** The point loop: for each light, six records, one per cube face in index order. */
  method PushPoints(lights: seq<Light>, points: seq<PointLight>) returns (r: seq<Light>)
    ensures |r| == |lights| + 6 * |points| && r[..|lights|] == lights
    ensures PointPart(r, |lights|, points, |points|)
  {
    var base := |lights|;
    r := lights;
    for j := 0 to |points|
      invariant |r| == base + 6 * j && r[..base] == lights
      invariant PointPart(r, base, points, j)
    {
      for f := 0 to 6
        invariant |r| == base + 6 * j + f && r[..base] == lights
        invariant PointPart(r, base, points, j)
        invariant forall g :: 0 <= g < f ==> r[base + 6 * j + g] == PointAsLight(points[j], Computed(Point, j, g))
      {
        r := r + [PointAsLight(points[j], Computed(Point, j, f))];
      }
    }
  }

  /** The four loops of the system: push every light's records in kind order. */
  method AssembleLights(dirs: seq<DirectionalLight>, spots: seq<SpotLight>,
                        points: seq<PointLight>, ambient: Option<AmbientLight>)
    returns (lights: seq<Light>)
    ensures Assembled(lights, dirs, spots, points, ambient)
  {
    var l1 := PushDirectional([], dirs);
    var l2 := PushSpots(l1, spots);
    var l3 := PushPoints(l2, points);
    lights := l3;
    if ambient.Some? {
      lights := lights + [AmbientAsLight(ambient.value, Identity)];
    }
    Extends(l1, l2);
    Extends(l2, l3);
    Extends(l3, lights);
    DirectionalKept(l1, l3, dirs);
    DirectionalKept(l3, lights, dirs);
    SpotKept(l2, lights, |l1|, spots);
    PointKept(l3, lights, |l2|, points);
  }

  /** `long` begins with `short`. */
  ghost predicate Prefix(short: seq<Light>, long: seq<Light>) {
    |short| <= |long| && forall i :: 0 <= i < |short| ==> long[i] == short[i]
  }

  lemma Extends(short: seq<Light>, long: seq<Light>)
    requires |short| <= |long| && long[..|short|] == short
    ensures Prefix(short, long)
  {
    forall i | 0 <= i < |short| ensures long[i] == short[i] {
      assert long[..|short|][i] == long[i];
    }
  }

  lemma DirectionalKept(short: seq<Light>, long: seq<Light>, dirs: seq<DirectionalLight>)
    requires Prefix(short, long) && DirectionalPart(short, 0, dirs)
    ensures DirectionalPart(long, 0, dirs)
  {
  }

  lemma SpotKept(short: seq<Light>, long: seq<Light>, base: nat, spots: seq<SpotLight>)
    requires Prefix(short, long) && SpotPart(short, base, spots)
    ensures SpotPart(long, base, spots)
  {
  }

  lemma PointKept(short: seq<Light>, long: seq<Light>, base: nat, points: seq<PointLight>)
    requires Prefix(short, long) && PointPart(short, base, points, |points|)
    ensures PointPart(long, base, points, |points|)
  {
  }

  /** Every record of a stretch of `s` has kind `k`. */
  ghost predicate AllOfKind(s: seq<Light>, a: nat, b: nat, k: ShadowKind)
    requires a <= b <= |s|
  {
    forall i :: a <= i < b ==> KindOf(s[i]) == k
  }

  /** Counting across a stretch of one kind adds its length to that kind and nothing to the others. */
  lemma {:induction false} CountAcross(s: seq<Light>, a: nat, b: nat, k: ShadowKind, k2: ShadowKind)
    requires a <= b <= |s| && AllOfKind(s, a, b, k)
    ensures Count(k2, s[..b]) == Count(k2, s[..a]) + (if k2 == k then b - a else 0)
    decreases b - a
  {
    if a < b {
      CountAcross(s, a, b - 1, k, k2);
      assert s[..b][..b - 1] == s[..b - 1];
    }
  }

  /** The kind each part's records have. */
  lemma AssembledKinds(lights: seq<Light>, dirs: seq<DirectionalLight>, spots: seq<SpotLight>,
                       points: seq<PointLight>, ambient: Option<AmbientLight>)
    requires Assembled(lights, dirs, spots, points, ambient)
    ensures var d, s, p := |dirs|, |spots|, |points|;
      AllOfKind(lights, 0, d, DirectionalMap) && AllOfKind(lights, d, d + s, SpotMap)
      && AllOfKind(lights, d + s, d + s + 6 * p, PointMap)
      && AllOfKind(lights, d + s + 6 * p, |lights|, NoMap)
  {
    var d, s, p := |dirs|, |spots|, |points|;
    forall i | 0 <= i < d ensures KindOf(lights[i]) == DirectionalMap {
      RecordKinds(dirs[i], DEFAULT_SPOT, DEFAULT_POINT, DEFAULT_AMBIENT, Computed(Directional, i, 0));
    }
    forall i | d <= i < d + s ensures KindOf(lights[i]) == SpotMap {
      assert lights[d + (i - d)] == SpotAsLight(spots[i - d], Computed(Spot, i - d, 0));
      RecordKinds(DEFAULT_DIRECTIONAL, spots[i - d], DEFAULT_POINT, DEFAULT_AMBIENT, Computed(Spot, i - d, 0));
    }
    PointKinds(lights, d + s, points);
    if ambient.Some? {
      RecordKinds(DEFAULT_DIRECTIONAL, DEFAULT_SPOT, DEFAULT_POINT, ambient.value, Identity);
      assert AllOfKind(lights, d + s + 6 * p, |lights|, NoMap);
    }
  }

  /** Every record of a point part is a point record. */
  lemma PointKinds(lights: seq<Light>, base: nat, points: seq<PointLight>)
    requires PointPart(lights, base, points, |points|)
    ensures AllOfKind(lights, base, base + 6 * |points|, PointMap)
  {
    forall i | base <= i < base + 6 * |points| ensures KindOf(lights[i]) == PointMap {
      var j, f := (i - base) / 6, (i - base) % 6;
      assert i == base + 6 * j + f;
      RecordKinds(DEFAULT_DIRECTIONAL, DEFAULT_SPOT, points[j], DEFAULT_AMBIENT, Computed(Point, j, f));
    }
  }

  /** A stretch of one shadow-casting kind is numbered consecutively from that kind's count before it. */
  lemma RankedAcross(s: seq<Light>, a: nat, b: nat, k: ShadowKind, before: nat)
    requires a <= b <= |s| && AllOfKind(s, a, b, k) && Count(k, s[..a]) == before
    ensures forall i :: a <= i < b ==> Rank(s, i) == before + i - a
  {
    forall i | a <= i < b ensures Rank(s, i) == before + i - a {
      CountAcross(s, a, i, k, k);
    }
  }

  /** Counting one kind over a list made of a directional, a spot, a point and a no-shadow stretch. */
  lemma PartsCountedFor(lights: seq<Light>, d: nat, s: nat, m: nat, k: ShadowKind)
    requires d + s <= m <= |lights|
    requires AllOfKind(lights, 0, d, DirectionalMap) && AllOfKind(lights, d, d + s, SpotMap)
    requires AllOfKind(lights, d + s, m, PointMap) && AllOfKind(lights, m, |lights|, NoMap)
    ensures Count(k, lights[..|lights|]) == Count(k, lights[..0])
      + (if k == DirectionalMap then d else if k == SpotMap then s else if k == PointMap then m - d - s else |lights| - m)
  {
    var n := |lights|;
    CountAcross(lights, 0, d, DirectionalMap, k);
    CountAcross(lights, d, d + s, SpotMap, k);
    CountAcross(lights, d + s, m, PointMap, k);
    CountAcross(lights, m, n, NoMap, k);
    ghost var c0, c1, c2, c3, c4 := Count(k, lights[..0]), Count(k, lights[..d]), Count(k, lights[..d + s]), Count(k, lights[..m]), Count(k, lights[..n]);
    SumOfParts(k, c0, c1, c2, c3, c4, d, s, m - d - s, n - m);
  }

  /** The arithmetic of `PartsCountedFor`: four stretches, each counting for its own kind only. */
  lemma SumOfParts(k: ShadowKind, c0: int, c1: int, c2: int, c3: int, c4: int, d: int, s: int, p: int, r: int)
    requires c1 == c0 + (if k == DirectionalMap then d else 0) && c2 == c1 + (if k == SpotMap then s else 0)
    requires c3 == c2 + (if k == PointMap then p else 0) && c4 == c3 + (if k == NoMap then r else 0)
    ensures c4 == c0 + (if k == DirectionalMap then d else if k == SpotMap then s else if k == PointMap then p else r)
  {
  }

  /** Counting a list made of a directional, a spot, a point and a no-shadow stretch. */
  lemma PartsCounted(lights: seq<Light>, d: nat, s: nat, m: nat)
    requires d + s <= m <= |lights|
    requires AllOfKind(lights, 0, d, DirectionalMap) && AllOfKind(lights, d, d + s, SpotMap)
    requires AllOfKind(lights, d + s, m, PointMap) && AllOfKind(lights, m, |lights|, NoMap)
    ensures Count(DirectionalMap, lights) == d && Count(SpotMap, lights) == s
    ensures Count(PointMap, lights) == m - d - s
  {
    assert lights[..0] == [];
    assert lights[..|lights|] == lights;
    PartsCountedFor(lights, d, s, m, DirectionalMap);
    PartsCountedFor(lights, d, s, m, SpotMap);
    PartsCountedFor(lights, d, s, m, PointMap);
  }

  /**
   * The kind counts of an assembled list: one directional, spot and point record per
   * directional light, spot light and cube face, so the point records come in whole cubes
   * and the manager's check always passes for this caller.
   */
  lemma AssembledCounts(lights: seq<Light>, dirs: seq<DirectionalLight>, spots: seq<SpotLight>,
                        points: seq<PointLight>, ambient: Option<AmbientLight>)
    requires Assembled(lights, dirs, spots, points, ambient)
    ensures Count(DirectionalMap, lights) == |dirs| && Count(SpotMap, lights) == |spots|
    ensures Count(PointMap, lights) == 6 * |points| && Count(PointMap, lights) % 6 == 0
  {
    AssembledKinds(lights, dirs, spots, points, ambient);
    PartsCounted(lights, |dirs|, |spots|, |dirs| + |spots| + 6 * |points|);
  }

  /** Numbering a list made of a directional, a spot and a point stretch. */
  lemma PartsNumbered(lights: seq<Light>, d: nat, s: nat, m: nat)
    requires d + s <= m <= |lights|
    requires AllOfKind(lights, 0, d, DirectionalMap) && AllOfKind(lights, d, d + s, SpotMap)
    requires AllOfKind(lights, d + s, m, PointMap)
    ensures forall i :: 0 <= i < d ==> Rank(lights, i) == i
    ensures forall i :: d <= i < d + s ==> Rank(lights, i) == i - d
    ensures forall i :: d + s <= i < m ==> Rank(lights, i) == i - d - s
  {
    assert lights[..0] == [];
    RankedAcross(lights, 0, d, DirectionalMap, 0);
    CountAcross(lights, 0, d, DirectionalMap, SpotMap);
    RankedAcross(lights, d, d + s, SpotMap, 0);
    CountAcross(lights, 0, d, DirectionalMap, PointMap);
    CountAcross(lights, d, d + s, SpotMap, PointMap);
    RankedAcross(lights, d + s, m, PointMap, 0);
  }

  /**
   * The published list: directional light i, with layer i; spot light i, with layer i; face
   * f of point light j, with layer 6j + f; then the ambient light, if any.
   */
  ghost predicate Published(prepared: seq<Light>, dirs: seq<DirectionalLight>, spots: seq<SpotLight>,
                            points: seq<PointLight>, ambient: Option<AmbientLight>)
  {
    var d, s, p := |dirs|, |spots|, |points|;
    |prepared| == d + s + 6 * p + (if ambient.Some? then 1 else 0)
    && DirectionalPublished(prepared, dirs)
    && SpotPublished(prepared, d, spots)
    && PointPublished(prepared, d + s, points)
    && (ambient.Some? ==> prepared[|prepared| - 1] == AmbientAsLight(ambient.value, Identity))
  }

  ghost predicate DirectionalPublished(prepared: seq<Light>, dirs: seq<DirectionalLight>) {
    |dirs| <= |prepared|
    && forall i :: 0 <= i < |dirs| ==>
         prepared[i] == DirectionalAsLight(dirs[i], Computed(Directional, i, 0)).(shadowMapIndex := i)
  }

  ghost predicate SpotPublished(prepared: seq<Light>, base: nat, spots: seq<SpotLight>) {
    base + |spots| <= |prepared|
    && forall i :: 0 <= i < |spots| ==>
         prepared[base + i] == SpotAsLight(spots[i], Computed(Spot, i, 0)).(shadowMapIndex := i)
  }

  ghost predicate PointPublished(prepared: seq<Light>, base: nat, points: seq<PointLight>) {
    base + 6 * |points| <= |prepared|
    && forall j, f :: 0 <= j < |points| && 0 <= f < 6 ==>
         prepared[base + 6 * j + f] == PointAsLight(points[j], Computed(Point, j, f)).(shadowMapIndex := 6 * j + f)
  }

  /** A numbered stretch of records, each given layer `i - base`. */
  ghost predicate NumberedFrom(records: seq<Light>, prepared: seq<Light>, a: nat, b: nat, base: nat)
    requires base <= a <= b <= |records| == |prepared|
  {
    forall i :: a <= i < b ==> prepared[i] == records[i].(shadowMapIndex := i - base)
  }

  /** A stretch of shadow-casting records ranked from `base` is numbered from `base`. */
  lemma RankedStretch(records: seq<Light>, prepared: seq<Light>, a: nat, b: nat, base: nat)
    requires base <= a <= b <= |records| == |prepared|
    requires forall i :: 0 <= i < |records| ==> prepared[i] == Numbered(records, i)
    requires forall i :: a <= i < b ==> KindOf(records[i]) != NoMap && Rank(records, i) == i - base
    ensures NumberedFrom(records, prepared, a, b, base)
  {
  }

  /** Numbering a list made of a directional, a spot and a point stretch, record by record. */
  lemma NumberedStretches(records: seq<Light>, prepared: seq<Light>, d: nat, s: nat, m: nat)
    requires d + s <= m <= |records| == |prepared|
    requires AllOfKind(records, 0, d, DirectionalMap) && AllOfKind(records, d, d + s, SpotMap)
    requires AllOfKind(records, d + s, m, PointMap)
    requires forall i :: 0 <= i < |records| ==> prepared[i] == Numbered(records, i)
    ensures NumberedFrom(records, prepared, 0, d, 0) && NumberedFrom(records, prepared, d, d + s, d)
    ensures NumberedFrom(records, prepared, d + s, m, d + s)
  {
    PartsNumbered(records, d, s, m);
    RankedStretch(records, prepared, 0, d, 0);
    RankedStretch(records, prepared, d, d + s, d);
    RankedStretch(records, prepared, d + s, m, d + s);
  }

  lemma DirectionalNumbered(records: seq<Light>, prepared: seq<Light>, dirs: seq<DirectionalLight>)
    requires |records| == |prepared| && DirectionalPart(records, 0, dirs)
    requires NumberedFrom(records, prepared, 0, |dirs|, 0)
    ensures DirectionalPublished(prepared, dirs)
  {
  }

  lemma SpotNumbered(records: seq<Light>, prepared: seq<Light>, base: nat, spots: seq<SpotLight>)
    requires |records| == |prepared| && SpotPart(records, base, spots)
    requires NumberedFrom(records, prepared, base, base + |spots|, base)
    ensures SpotPublished(prepared, base, spots)
  {
    forall i | 0 <= i < |spots|
      ensures prepared[base + i] == SpotAsLight(spots[i], Computed(Spot, i, 0)).(shadowMapIndex := i)
    {
      var k := base + i;
      assert prepared[k] == records[k].(shadowMapIndex := k - base);
    }
  }

  lemma PointNumbered(records: seq<Light>, prepared: seq<Light>, base: nat, points: seq<PointLight>)
    requires |records| == |prepared| && PointPart(records, base, points, |points|)
    requires NumberedFrom(records, prepared, base, base + 6 * |points|, base)
    ensures PointPublished(prepared, base, points)
  {
    forall j, f | 0 <= j < |points| && 0 <= f < 6
      ensures prepared[base + 6 * j + f] == PointAsLight(points[j], Computed(Point, j, f)).(shadowMapIndex := 6 * j + f)
    {
      var k := base + 6 * j + f;
      assert prepared[k] == records[k].(shadowMapIndex := k - base);
    }
  }

  /** Numbering an assembled list publishes it. */
  lemma NumberedIsPublished(records: seq<Light>, prepared: seq<Light>, dirs: seq<DirectionalLight>,
                            spots: seq<SpotLight>, points: seq<PointLight>, ambient: Option<AmbientLight>)
    requires Assembled(records, dirs, spots, points, ambient)
    requires |prepared| == |records| && forall i :: 0 <= i < |records| ==> prepared[i] == Numbered(records, i)
    ensures Published(prepared, dirs, spots, points, ambient)
  {
    var d, s, p := |dirs|, |spots|, |points|;
    AssembledKinds(records, dirs, spots, points, ambient);
    PartsPublished(records, prepared, dirs, spots, points);
    if ambient.Some? {
      AmbientNumbered(records, prepared, d + s + 6 * p);
    }
  }

  /** The three shadow-casting parts of a numbered list, published. */
  lemma PartsPublished(records: seq<Light>, prepared: seq<Light>, dirs: seq<DirectionalLight>,
                       spots: seq<SpotLight>, points: seq<PointLight>)
    requires var d, s, m := |dirs|, |spots|, |dirs| + |spots| + 6 * |points|;
      m <= |records| == |prepared|
      && AllOfKind(records, 0, d, DirectionalMap) && AllOfKind(records, d, d + s, SpotMap)
      && AllOfKind(records, d + s, m, PointMap)
      && DirectionalPart(records, 0, dirs) && SpotPart(records, d, spots)
      && PointPart(records, d + s, points, |points|)
    requires forall i :: 0 <= i < |records| ==> prepared[i] == Numbered(records, i)
    ensures DirectionalPublished(prepared, dirs) && SpotPublished(prepared, |dirs|, spots)
    ensures PointPublished(prepared, |dirs| + |spots|, points)
  {
    var d, s, p := |dirs|, |spots|, |points|;
    NumberedStretches(records, prepared, d, s, d + s + 6 * p);
    DirectionalNumbered(records, prepared, dirs);
    SpotNumbered(records, prepared, d, spots);
    PointNumbered(records, prepared, d + s, points);
  }

  /** The records after the shadow-casting ones are published as they are. */
  lemma AmbientNumbered(records: seq<Light>, prepared: seq<Light>, m: nat)
    requires m < |records| == |prepared| && AllOfKind(records, m, |records|, NoMap)
    requires forall i :: 0 <= i < |records| ==> prepared[i] == Numbered(records, i)
    ensures prepared[|prepared| - 1] == records[|records| - 1]
  {
    var n := |records| - 1;
    assert KindOf(records[n]) == NoMap;
    assert prepared[n] == Numbered(records, n);
  }

  /**
   * The system: with no active camera the published list is empty and nothing else happens;
   * otherwise the assembled list is numbered by the manager, which never panics here, and
   * published; the shadow map arrays get max(D, 1), max(6P, 6) and max(S, 1) layers.
   */
  method PrepareLightData(activeCamera: bool, dirs: seq<DirectionalLight>, spots: seq<SpotLight>,
                          points: seq<PointLight>, ambient: Option<AmbientLight>,
                          manager: LightAndShadowManager)
    returns (prepared: seq<Light>, r: Result<()>)
    modifies manager
    ensures !activeCamera ==> prepared == [] && r.Ok? && unchanged(manager)
    ensures activeCamera ==> r.Ok? && manager.stored == prepared && Published(prepared, dirs, spots, points, ambient)
    ensures activeCamera ==>
      manager.directionalLayers == Max(|dirs|, 1) && manager.pointLayers == Max(6 * |points|, 6)
      && manager.spotLayers == Max(|spots|, 1)
  {
    if !activeCamera {
      return [], Ok(());
    }
    var records := AssembleLights(dirs, spots, points, ambient);
    AssembledCounts(records, dirs, spots, points, ambient);
    var buffer := new Light[|records|](i requires 0 <= i < |records| => records[i]);
    assert buffer[..] == records;
    r := manager.Update(buffer);
    prepared := buffer[..];
    NumberedIsPublished(records, prepared, dirs, spots, points, ambient);
  }

  /**
   * With the flags as written, a shadow-casting spot light (the default) is counted as a
   * point light: a scene with one such spot light makes the manager panic. This rests on
   * `is_point` testing the Point bit, as `IsPoint` takes it to.
   */
  lemma SpotShadowPanicsAsWritten(spot: SpotLight, m: Matrix)
    requires spot.shadow
    ensures var l := SpotAsLight(spot, m).(flags := FlagsAsWritten(Spot, true));
      KindOf(l) == PointMap && Count(PointMap, [l]) % 6 != 0
  {
    var l := SpotAsLight(spot, m).(flags := FlagsAsWritten(Spot, true));
    ShadowFlagsAsWrittenWrong(Spot);
    assert [l][..0] == [];
  }
}
