/** The import consistency check, `findAllMissingConversionsFromImport`
    (src/lib/utils/unitSelectUtils.ts, lines 171-304).  The scan produces a
    stream of conversion requests, and `addMissingConversion` files each
    request under its ingredient id, skipping repeats and every volume/mass
    request after the first one for that id.  The model separates the two:
    `Requests` is the stream in scan order, `Scan` is the filing. */
module ImportCheck {
  import opened Wrappers
  import opened Seqs
  import opened Records
  import opened Schema
  import opened Units
  import opened UnitSelectUtils

  // ---------------------------------------------------------------------
  // addMissingConversion
  // ---------------------------------------------------------------------

  /** One call of `addMissingConversion`. */
  datatype Request = Request(ingredientId: string, ingredientName: string, pair: ConversionPair)

  /** The value stored per ingredient id. */
  datatype MissingEntry = MissingEntry(ingredientName: string, missingConversions: seq<ConversionPair>)

  /** The map being built, and the set of `id:fromType:toType` keys of the
      volume/mass conversions filed so far. */
  datatype ScanState = ScanState(missing: Record<MissingEntry>, crossAdded: set<string>)

  /** `${ingredientId}:${inputType}:${outputType}`. */
  function CrossKey(id: string, inputType: string, outputType: string): string {
    id + ":" + inputType + ":" + outputType
  }

  /** A volume/mass conversion, either way. */
  predicate IsCross(p: ConversionPair) {
    CrossPair(p.inputUnit, p.outputUnit)
  }

  /** A volume/mass conversion has been filed for `id`, in either direction. */
  predicate CrossSeen(added: set<string>, id: string) {
    CrossKey(id, "volume", "mass") in added || CrossKey(id, "mass", "volume") in added
  }

  predicate StandardType(t: string) {
    t == "volume" || t == "mass"
  }

  /** Keys of different ingredients never collide, whatever characters the
      ids hold: both type suffixes are twelve characters long. */
  lemma CrossKeyInjective(a: string, b: string, t1: string, t2: string, t3: string, t4: string)
    requires StandardType(t1) && StandardType(t2) && t1 != t2
    requires StandardType(t3) && StandardType(t4) && t3 != t4
    requires CrossKey(a, t1, t2) == CrossKey(b, t3, t4)
    ensures a == b && t1 == t3 && t2 == t4
  {
    var k := CrossKey(a, t1, t2);
    assert |k| == |a| + 12;
    assert |k| == |b| + 12;
    assert a == k[..|a|];
    assert b == k[..|b|];
    assert k[|a| + 1] == t1[0] == t3[0];
  }

  /** `addMissingConversion`: a volume/mass request for an id that already
      has one, in either direction, is dropped; otherwise the pair is appended
      to the id's entry unless already listed, or a new entry is created with
      the request's name. */
  function AddMissingConversion(st: ScanState, rq: Request): ScanState {
    var id := rq.ingredientId;
    var inputType := GetUnitType(rq.pair.inputUnit);
    var outputType := GetUnitType(rq.pair.outputUnit);
    var cross := CrossTypes(inputType, outputType);
    if cross && (CrossKey(id, inputType, outputType) in st.crossAdded ||
                 CrossKey(id, outputType, inputType) in st.crossAdded) then st
    else
      var added := if cross then st.crossAdded + {CrossKey(id, inputType, outputType)} else st.crossAdded;
      match Get(st.missing, id)
      case Some(existing) =>
        if rq.pair in existing.missingConversions then ScanState(st.missing, added)
        else ScanState(Set(st.missing, id, MissingEntry(existing.ingredientName,
                                                        existing.missingConversions + [rq.pair])), added)
      case None =>
        ScanState(Set(st.missing, id, MissingEntry(rq.ingredientName, [rq.pair])), added)
  }

  /** The filing of a stream of requests, in order. */
  function Scan(rs: seq<Request>): ScanState
    decreases |rs|
  {
    if rs == [] then ScanState([], {})
    else AddMissingConversion(Scan(rs[..|rs| - 1]), rs[|rs| - 1])
  }

  // ---------------------------------------------------------------------
  // The per-ingredient reference: what one id's entry should hold
  // ---------------------------------------------------------------------

  /** The requests for `id`, in order. */
  function RequestsFor(rs: seq<Request>, id: string): (f: seq<Request>)
    ensures forall r :: r in f <==> r in rs && r.ingredientId == id
    decreases |rs|
  {
    if rs == [] then []
    else
      var n := |rs| - 1;
      RequestsFor(rs[..n], id) + (if rs[n].ingredientId == id then [rs[n]] else [])
  }

  function PairsOf(rs: seq<Request>): (ps: seq<ConversionPair>)
    ensures |ps| == |rs|
    ensures forall i :: 0 <= i < |rs| ==> ps[i] == rs[i].pair
  {
    seq(|rs|, i requires 0 <= i < |rs| => rs[i].pair)
  }

  predicate HasCross(ps: seq<ConversionPair>) {
    exists i :: 0 <= i < |ps| && IsCross(ps[i])
  }

  /** One pair offered to a list: dropped if it is volume/mass and the list
      already has such a pair, or if it is listed already. */
  function DedupStep(ps: seq<ConversionPair>, p: ConversionPair): seq<ConversionPair> {
    if IsCross(p) && HasCross(ps) then ps
    else if p in ps then ps
    else ps + [p]
  }

  /** The pairs of a request stream with repeats and later volume/mass pairs
      dropped, in order of first appearance. */
  function DedupPairs(ps: seq<ConversionPair>): seq<ConversionPair>
    decreases |ps|
  {
    if ps == [] then []
    else DedupStep(DedupPairs(ps[..|ps| - 1]), ps[|ps| - 1])
  }

  /** The entry `id` should have after the requests `rs`: none when nothing
      was requested for it, otherwise the first request's name and the
      deduplicated pairs. */
  function EntryFor(rs: seq<Request>, id: string): Option<MissingEntry> {
    var f := RequestsFor(rs, id);
    if f == [] then None else Some(MissingEntry(f[0].ingredientName, DedupPairs(PairsOf(f))))
  }

  lemma HasCrossAppend(ps: seq<ConversionPair>, p: ConversionPair)
    ensures HasCross(ps + [p]) <==> HasCross(ps) || IsCross(p)
  {
    var m := ps + [p];
    if HasCross(m) && !IsCross(p) {
      var a :| 0 <= a < |m| && IsCross(m[a]);
      assert m[a] == ps[a];
    }
    if HasCross(ps) {
      var a :| 0 <= a < |ps| && IsCross(ps[a]);
      assert m[a] == ps[a];
    }
    if IsCross(p) {
      assert m[|ps|] == p;
    }
  }

  /** Adding one request at the end of the stream. */
  lemma RequestsForAppend(rs: seq<Request>, r: Request, id: string)
    ensures RequestsFor(rs + [r], id) == RequestsFor(rs, id) + (if r.ingredientId == id then [r] else [])
  {
    assert (rs + [r])[..|rs|] == rs;
  }

  lemma DedupPairsAppend(ps: seq<ConversionPair>, p: ConversionPair)
    ensures DedupPairs(ps + [p]) == DedupStep(DedupPairs(ps), p)
  {
    assert (ps + [p])[..|ps|] == ps;
  }

  lemma PairsOfAppend(rs: seq<Request>, r: Request)
    ensures PairsOf(rs + [r]) == PairsOf(rs) + [r.pair]
  {
  }

  /** The filing keeps, for every id, exactly the entry the reference
      prescribes, and remembers a volume/mass key for an id exactly when that
      id's entry holds a volume/mass pair. */
  lemma {:induction false} ScanMatchesEntries(rs: seq<Request>)
    ensures KeysDistinct(Scan(rs).missing)
    ensures forall id :: Get(Scan(rs).missing, id) == EntryFor(rs, id)
    ensures forall id :: CrossSeen(Scan(rs).crossAdded, id) <==> HasCross(DedupPairs(PairsOf(RequestsFor(rs, id))))
    decreases |rs|
  {
    if rs == [] {
      assert forall id :: RequestsFor(rs, id) == [];
    } else {
      var n := |rs| - 1;
      var pre := rs[..n];
      var r := rs[n];
      assert rs == pre + [r];
      ScanMatchesEntries(pre);
      var st := Scan(pre);
      forall id
        ensures Get(Scan(rs).missing, id) == EntryFor(rs, id)
        ensures CrossSeen(Scan(rs).crossAdded, id) <==> HasCross(DedupPairs(PairsOf(RequestsFor(rs, id))))
      {
        assert Agrees(st, pre, id);
        if id == r.ingredientId {
          StepSameId(st, pre, r);
        } else {
          StepOtherId(st, pre, r, id);
        }
        assert Agrees(Scan(rs), rs, id);
      }
    }
  }

  /** The request's own id before and after it: the pairs filed so far,
      deduplicated, and the same with the new pair offered. */
  lemma SameIdReference(pre: seq<Request>, r: Request)
    ensures var f := RequestsFor(pre, r.ingredientId);
            var ps := DedupPairs(PairsOf(f));
            && RequestsFor(pre + [r], r.ingredientId) == f + [r]
            && DedupPairs(PairsOf(f + [r])) == DedupStep(ps, r.pair)
            && (HasCross(ps + [r.pair]) <==> HasCross(ps) || IsCross(r.pair))
            && (f == [] ==> ps == [] && !HasCross(ps))
  {
    var id := r.ingredientId;
    var f := RequestsFor(pre, id);
    RequestsForAppend(pre, r, id);
    PairsOfAppend(f, r);
    DedupPairsAppend(PairsOf(f), r.pair);
    HasCrossAppend(DedupPairs(PairsOf(f)), r.pair);
    if f == [] {
      assert PairsOf(f) == [];
    }
  }

  /** The filing state agrees with the reference for `id` after `rs`: the
      same entry, and a volume/mass key exactly when the entry holds such a
      pair. */
  predicate Agrees(st: ScanState, rs: seq<Request>, id: string) {
    && Get(st.missing, id) == EntryFor(rs, id)
    && (CrossSeen(st.crossAdded, id) <==> HasCross(DedupPairs(PairsOf(RequestsFor(rs, id)))))
  }

  /** `addMissingConversion` drops the request: it is volume/mass and its
      id has such a key already. */
  predicate Dropped(st: ScanState, r: Request) {
    var inputType := GetUnitType(r.pair.inputUnit);
    var outputType := GetUnitType(r.pair.outputUnit);
    && CrossTypes(inputType, outputType)
    && (CrossKey(r.ingredientId, inputType, outputType) in st.crossAdded ||
        CrossKey(r.ingredientId, outputType, inputType) in st.crossAdded)
  }

  /** Whether a request is dropped depends only on whether it is
      volume/mass and whether its id has such a key. */
  lemma DroppedMeans(st: ScanState, r: Request)
    ensures Dropped(st, r) <==> IsCross(r.pair) && CrossSeen(st.crossAdded, r.ingredientId)
    ensures !Dropped(st, r) ==> (CrossSeen(AddMissingConversion(st, r).crossAdded, r.ingredientId) <==>
                                 CrossSeen(st.crossAdded, r.ingredientId) || IsCross(r.pair))
  {
    var inputType := GetUnitType(r.pair.inputUnit);
    var outputType := GetUnitType(r.pair.outputUnit);
    if CrossTypes(inputType, outputType) {
      assert {inputType, outputType} == {"volume", "mass"};
    }
  }

  /** A dropped request changes nothing, and the reference drops it too. */
  lemma StepDropped(st: ScanState, pre: seq<Request>, r: Request)
    requires Agrees(st, pre, r.ingredientId)
    requires Dropped(st, r)
    ensures Agrees(AddMissingConversion(st, r), pre + [r], r.ingredientId)
  {
    var f := RequestsFor(pre, r.ingredientId);
    SameIdReference(pre, r);
    DroppedMeans(st, r);
    assert AddMissingConversion(st, r) == st;
    assert f != [];
    assert (f + [r])[0] == f[0];
  }

  /** A request for an id with no entry yet opens one. */
  lemma StepOpens(st: ScanState, pre: seq<Request>, r: Request)
    requires Agrees(st, pre, r.ingredientId)
    requires !Dropped(st, r) && RequestsFor(pre, r.ingredientId) == []
    ensures Agrees(AddMissingConversion(st, r), pre + [r], r.ingredientId)
  {
    var f := RequestsFor(pre, r.ingredientId);
    SameIdReference(pre, r);
    DroppedMeans(st, r);
    assert Get(st.missing, r.ingredientId).None?;
    assert f + [r] == [r];
    assert DedupStep([], r.pair) == [r.pair];
  }

  /** A request for an id with an entry extends it unless the pair is there. */
  lemma StepExtends(st: ScanState, pre: seq<Request>, r: Request)
    requires Agrees(st, pre, r.ingredientId)
    requires !Dropped(st, r) && RequestsFor(pre, r.ingredientId) != []
    ensures Agrees(AddMissingConversion(st, r), pre + [r], r.ingredientId)
  {
    var f := RequestsFor(pre, r.ingredientId);
    var ps := DedupPairs(PairsOf(f));
    SameIdReference(pre, r);
    DroppedMeans(st, r);
    assert (f + [r])[0] == f[0];
    assert Get(st.missing, r.ingredientId) == Some(MissingEntry(f[0].ingredientName, ps));
    assert DedupStep(ps, r.pair) == if r.pair in ps then ps else ps + [r.pair];
  }

  /** The step of `ScanMatchesEntries` for the request's own id. */
  lemma StepSameId(st: ScanState, pre: seq<Request>, r: Request)
    requires Agrees(st, pre, r.ingredientId)
    ensures Agrees(AddMissingConversion(st, r), pre + [r], r.ingredientId)
  {
    if Dropped(st, r) {
      StepDropped(st, pre, r);
    } else if RequestsFor(pre, r.ingredientId) == [] {
      StepOpens(st, pre, r);
    } else {
      StepExtends(st, pre, r);
    }
  }

  /** Filing a request leaves the entries of every other id alone. */
  lemma AddKeepsOtherEntry(st: ScanState, r: Request, id: string)
    requires id != r.ingredientId
    ensures Get(AddMissingConversion(st, r).missing, id) == Get(st.missing, id)
  {
  }

  /** Filing a request leaves the volume/mass keys of every other id alone. */
  lemma AddKeepsOtherCross(st: ScanState, r: Request, id: string)
    requires id != r.ingredientId
    ensures CrossSeen(AddMissingConversion(st, r).crossAdded, id) <==> CrossSeen(st.crossAdded, id)
  {
    var inputType := GetUnitType(r.pair.inputUnit);
    var outputType := GetUnitType(r.pair.outputUnit);
    if CrossTypes(inputType, outputType) {
      var k := CrossKey(r.ingredientId, inputType, outputType);
      if k == CrossKey(id, "volume", "mass") {
        CrossKeyInjective(r.ingredientId, id, inputType, outputType, "volume", "mass");
      }
      if k == CrossKey(id, "mass", "volume") {
        CrossKeyInjective(r.ingredientId, id, inputType, outputType, "mass", "volume");
      }
    }
  }

  /** The step of `ScanMatchesEntries` for every other id. */
  lemma StepOtherId(st: ScanState, pre: seq<Request>, r: Request, id: string)
    requires id != r.ingredientId
    requires Agrees(st, pre, id)
    ensures Agrees(AddMissingConversion(st, r), pre + [r], id)
  {
    RequestsForAppend(pre, r, id);
    assert RequestsFor(pre + [r], id) == RequestsFor(pre, id);
    AddKeepsOtherEntry(st, r, id);
    AddKeepsOtherCross(st, r, id);
  }

  // ---------------------------------------------------------------------
  // Properties of the deduplicated pair list
  // ---------------------------------------------------------------------

  /** At most one volume/mass pair in a list. */
  predicate AtMostOneCross(d: seq<ConversionPair>) {
    forall a, b :: 0 <= a < b < |d| && IsCross(d[a]) ==> !IsCross(d[b])
  }

  /** One step of the deduplication keeps the list free of repeats and of a
      second volume/mass pair, and adds nothing but the offered pair. */
  lemma DedupStepShape(d: seq<ConversionPair>, p: ConversionPair)
    requires NoDup(d) && AtMostOneCross(d)
    ensures forall q :: q in DedupStep(d, p) ==> q in d || q == p
    ensures NoDup(DedupStep(d, p)) && AtMostOneCross(DedupStep(d, p))
    ensures HasCross(DedupStep(d, p)) <==> HasCross(d) || IsCross(p)
  {
    HasCrossAppend(d, p);
    var d' := DedupStep(d, p);
    if d' != d {
      assert d' == d + [p];
      forall a, b | 0 <= a < b < |d'|
        ensures d'[a] != d'[b]
      {
        if b == |d| {
          assert d'[a] == d[a];
        }
      }
      forall a | 0 <= a < |d| && IsCross(d'[a])
        ensures !IsCross(d'[|d|])
      {
        assert d'[a] == d[a];
      }
    }
  }

  /** Every kept pair was requested, none twice, and at most one is
      volume/mass. */
  lemma {:induction false} DedupShape(ps: seq<ConversionPair>)
    ensures forall q :: q in DedupPairs(ps) ==> q in ps
    ensures NoDup(DedupPairs(ps)) && AtMostOneCross(DedupPairs(ps))
    ensures HasCross(DedupPairs(ps)) <==> HasCross(ps)
    decreases |ps|
  {
    if ps != [] {
      var n := |ps| - 1;
      var pre := ps[..n];
      assert ps == pre + [ps[n]];
      DedupShape(pre);
      DedupStepShape(DedupPairs(pre), ps[n]);
      HasCrossAppend(pre, ps[n]);
    }
  }

  /** Every requested pair that is not volume/mass is kept. */
  lemma {:induction false} DedupKeepsNonCross(ps: seq<ConversionPair>)
    ensures forall q :: q in ps && !IsCross(q) ==> q in DedupPairs(ps)
    decreases |ps|
  {
    if ps != [] {
      var n := |ps| - 1;
      var pre := ps[..n];
      assert ps == pre + [ps[n]];
      DedupKeepsNonCross(pre);
    }
  }

  /** The first volume/mass pair requested is the one kept. */
  lemma {:induction false} DedupKeepsFirstCross(ps: seq<ConversionPair>, i: nat)
    requires i < |ps| && IsCross(ps[i])
    requires forall j :: 0 <= j < i ==> !IsCross(ps[j])
    ensures ps[i] in DedupPairs(ps)
    decreases |ps|
  {
    var n := |ps| - 1;
    var pre := ps[..n];
    assert ps == pre + [ps[n]];
    if i < n {
      assert pre[i] == ps[i];
      DedupKeepsFirstCross(pre, i);
    } else {
      DedupShape(pre);
    }
  }

  // ---------------------------------------------------------------------
  // The scan: which requests are made
  // ---------------------------------------------------------------------

  /** A request when the units differ and no conversion path exists. */
  function Check(id: string, name: string, input: string, output: string,
                 conversions: seq<UnitConversion>, resolve: Resolver): (o: Option<Request>)
    ensures o.Some? <==> input != output && !HasConversion(resolve, input, output, id, conversions)
    ensures o.Some? ==> o.value == Request(id, name, ConversionPair(input, output))
  {
    if input != output && !HasConversion(resolve, input, output, id, conversions)
    then Some(Request(id, name, ConversionPair(input, output)))
    else None
  }

  /** A recipe line: skipped when hidden; checked against the base
      ingredient's product unit, or else against the compound's yield unit;
      skipped when the id names neither. */
  function RecipeLineRequest(line: IngredientLine, costs: Record<IngredientDoc>,
                             compounds: Record<CompoundIngredientDoc>,
                             conversions: seq<UnitConversion>, resolve: Resolver): Option<Request>
  {
    if line.hidden then None
    else match Get(costs, line.id)
      case Some(doc) => Check(line.id, doc.name, line.portion.unit, doc.product.unit, conversions, resolve)
      case None =>
        match Get(compounds, line.id)
        case Some(c) => Check(line.id, c.name, line.portion.unit, c.yieldPortion.unit, conversions, resolve)
        case None => None
  }

  /** A compound's yield unit against its viewed unit, filed under the
      compound's id. */
  function YieldRequest(c: CompoundIngredientDoc, conversions: seq<UnitConversion>, resolve: Resolver)
    : Option<Request>
  {
    Check(c.id, c.name, c.yieldPortion.unit, c.viewedUnit, conversions, resolve)
  }

  /** A compound's own line: only base ingredients are checked. */
  function SubLineRequest(line: IngredientLine, costs: Record<IngredientDoc>,
                          conversions: seq<UnitConversion>, resolve: Resolver): Option<Request>
  {
    if line.hidden then None
    else match Get(costs, line.id)
      case Some(doc) => Check(line.id, doc.name, line.portion.unit, doc.product.unit, conversions, resolve)
      case None => None
  }

  function AsSeq(o: Option<Request>): (s: seq<Request>)
    ensures forall r :: r in s <==> o == Some(r)
  {
    match o
    case Some(r) => [r]
    case None => []
  }

  /** The requests of each item in turn, concatenated in item order. */
  function Collect<T>(xs: seq<T>, f: T -> seq<Request>): seq<Request>
    decreases |xs|
  {
    if xs == [] then []
    else Collect(xs[..|xs| - 1], f) + f(xs[|xs| - 1])
  }

  lemma {:induction false} CollectMembers<T>(xs: seq<T>, f: T -> seq<Request>)
    ensures forall r :: r in Collect(xs, f) <==> exists i :: 0 <= i < |xs| && r in f(xs[i])
    decreases |xs|
  {
    if xs != [] {
      var n := |xs| - 1;
      var pre := xs[..n];
      CollectMembers(pre, f);
      assert forall i :: 0 <= i < n ==> pre[i] == xs[i];
    }
  }

  function RecipeLineOutcomes(costs: Record<IngredientDoc>, compounds: Record<CompoundIngredientDoc>,
                              conversions: seq<UnitConversion>, resolve: Resolver): IngredientLine -> seq<Request>
  {
    (line: IngredientLine) => AsSeq(RecipeLineRequest(line, costs, compounds, conversions, resolve))
  }

  function RecipeOutcomes(costs: Record<IngredientDoc>, compounds: Record<CompoundIngredientDoc>,
                          conversions: seq<UnitConversion>, resolve: Resolver): RecipeDoc -> seq<Request>
  {
    (recipe: RecipeDoc) => Collect(recipe.ingredients, RecipeLineOutcomes(costs, compounds, conversions, resolve))
  }

  function SubLineOutcomes(costs: Record<IngredientDoc>, conversions: seq<UnitConversion>, resolve: Resolver)
    : IngredientLine -> seq<Request>
  {
    (line: IngredientLine) => AsSeq(SubLineRequest(line, costs, conversions, resolve))
  }

  /** Per compound: its yield check, then its own lines. */
  function CompoundOutcomes(costs: Record<IngredientDoc>, conversions: seq<UnitConversion>, resolve: Resolver)
    : CompoundIngredientDoc -> seq<Request>
  {
    (c: CompoundIngredientDoc) =>
      AsSeq(YieldRequest(c, conversions, resolve)) + Collect(c.ingredients, SubLineOutcomes(costs, conversions, resolve))
  }

  /** All requests of one import, in scan order. */
  function Requests(costs: Record<IngredientDoc>, recipes: Record<RecipeDoc>,
                    compounds: Record<CompoundIngredientDoc>,
                    conversions: seq<UnitConversion>, resolve: Resolver): seq<Request>
  {
    Collect(Values(recipes), RecipeOutcomes(costs, compounds, conversions, resolve)) +
    Collect(Values(compounds), CompoundOutcomes(costs, conversions, resolve))
  }

  /** The ingredient ids of a request stream, in order. */
  function Ids(rs: seq<Request>): (ids: seq<string>)
    ensures |ids| == |rs|
    ensures forall i :: 0 <= i < |rs| ==> ids[i] == rs[i].ingredientId
  {
    seq(|rs|, i requires 0 <= i < |rs| => rs[i].ingredientId)
  }

  /** Filing a request whose id ends up with an entry adds that id as the
      last key when it is new, and leaves the keys alone otherwise. */
  lemma AddKeys(st: ScanState, r: Request)
    requires Get(AddMissingConversion(st, r).missing, r.ingredientId).Some?
    ensures var ks := Keys(st.missing);
            Keys(AddMissingConversion(st, r).missing) == if r.ingredientId in ks then ks else ks + [r.ingredientId]
  {
  }

  /** The id of the latest request has an entry. */
  lemma LastIsFiled(rs: seq<Request>)
    requires rs != []
    ensures Get(Scan(rs).missing, rs[|rs| - 1].ingredientId).Some?
  {
    var r := rs[|rs| - 1];
    ScanMatchesEntries(rs);
    EntryForExists(rs, r.ingredientId);
    assert r in rs;
  }

  /** The filed ids are the requested ids, each once, in order of first
      request, as a `Map` keeps its insertion order. */
  lemma {:induction false} ScanKeys(rs: seq<Request>)
    ensures Keys(Scan(rs).missing) == Distinct(Ids(rs))
    decreases |rs|
  {
    if rs != [] {
      var n := |rs| - 1;
      var r := rs[n];
      ScanKeys(rs[..n]);
      assert Ids(rs) == Ids(rs[..n]) + [r.ingredientId];
      DistinctSnoc(Ids(rs[..n]), r.ingredientId);
      LastIsFiled(rs);
      assert Scan(rs) == AddMissingConversion(Scan(rs[..n]), r);
      AddKeys(Scan(rs[..n]), r);
    }
  }

  /** `findAllMissingConversionsFromImport`: per ingredient id, the first
      request's name and the requested pairs with repeats and later
      volume/mass pairs dropped. */
  function FindAllMissingConversionsFromImport(costs: Record<IngredientDoc>, recipes: Record<RecipeDoc>,
                                               compounds: Record<CompoundIngredientDoc>,
                                               conversions: seq<UnitConversion>, resolve: Resolver)
    : (r: Record<MissingEntry>)
    ensures KeysDistinct(r)
    ensures forall id :: Get(r, id) == EntryFor(Requests(costs, recipes, compounds, conversions, resolve), id)
    ensures Keys(r) == Distinct(Ids(Requests(costs, recipes, compounds, conversions, resolve)))
  {
    ScanMatchesEntries(Requests(costs, recipes, compounds, conversions, resolve));
    ScanKeys(Requests(costs, recipes, compounds, conversions, resolve));
    Scan(Requests(costs, recipes, compounds, conversions, resolve)).missing
  }

  /** The reference entry of an id exists exactly when something was
      requested for the id, and then carries the first request's name. */
  lemma EntryForExists(rs: seq<Request>, id: string)
    ensures EntryFor(rs, id).Some? <==> exists r :: r in rs && r.ingredientId == id
    ensures EntryFor(rs, id).Some? ==>
              exists i :: 0 <= i < |rs| && rs[i].ingredientId == id &&
                          EntryFor(rs, id).value.ingredientName == rs[i].ingredientName &&
                          forall j :: 0 <= j < i ==> rs[j].ingredientId != id
  {
    var f := RequestsFor(rs, id);
    if f != [] {
      assert f[0] in rs;
      FirstRequest(rs, id);
      var i :| EarliestFor(rs, id, i) && rs[i] == f[0];
      assert EntryFor(rs, id).value.ingredientName == rs[i].ingredientName;
    }
  }

  /** `rs[i]` is the earliest request for `id`. */
  predicate EarliestFor(rs: seq<Request>, id: string, i: int) {
    && 0 <= i < |rs|
    && rs[i].ingredientId == id
    && forall j :: 0 <= j < i ==> rs[j].ingredientId != id
  }

  /** The first request for an id is the earliest one in the stream. */
  lemma {:induction false} FirstRequest(rs: seq<Request>, id: string)
    requires RequestsFor(rs, id) != []
    ensures exists i :: EarliestFor(rs, id, i) && rs[i] == RequestsFor(rs, id)[0]
    decreases |rs|
  {
    var n := |rs| - 1;
    var pre := rs[..n];
    var f := RequestsFor(pre, id);
    assert RequestsFor(rs, id) == f + (if rs[n].ingredientId == id then [rs[n]] else []);
    if f != [] {
      FirstRequest(pre, id);
      var i :| EarliestFor(pre, id, i) && pre[i] == f[0];
      assert rs[i] == pre[i];
      forall j | 0 <= j < i
        ensures rs[j].ingredientId != id
      {
        assert rs[j] == pre[j];
      }
      assert EarliestFor(rs, id, i);
    } else {
      forall j | 0 <= j < n
        ensures rs[j].ingredientId != id
      {
        assert rs[j] == pre[j] && pre[j] in pre;
      }
      assert EarliestFor(rs, id, n);
    }
  }

  /** The pairs of an id's reference entry were all requested for the id,
      none twice, and at most one is volume/mass. */
  lemma EntryPairsSound(rs: seq<Request>, id: string)
    ensures var m := DedupPairs(PairsOf(RequestsFor(rs, id)));
            forall q :: q in m ==> exists r :: r in rs && r.ingredientId == id && r.pair == q
    ensures NoDup(DedupPairs(PairsOf(RequestsFor(rs, id))))
    ensures var m := DedupPairs(PairsOf(RequestsFor(rs, id)));
            forall a, b :: 0 <= a < b < |m| && IsCross(m[a]) ==> !IsCross(m[b])
  {
    var f := RequestsFor(rs, id);
    var ps := PairsOf(f);
    DedupShape(ps);
    forall q | q in DedupPairs(ps)
      ensures exists r :: r in rs && r.ingredientId == id && r.pair == q
    {
      var i :| 0 <= i < |ps| && ps[i] == q;
      assert f[i] in f;
    }
  }

  /** Every pair requested for an id that is not volume/mass is in its
      reference entry, and so is the first volume/mass one requested. */
  lemma EntryPairsComplete(rs: seq<Request>, id: string)
    ensures var m := DedupPairs(PairsOf(RequestsFor(rs, id)));
            forall r :: r in rs && r.ingredientId == id && !IsCross(r.pair) ==> r.pair in m
    ensures var f := RequestsFor(rs, id);
            var m := DedupPairs(PairsOf(f));
            forall i :: 0 <= i < |f| && IsCross(f[i].pair) && (forall j :: 0 <= j < i ==> !IsCross(f[j].pair)) ==>
              f[i].pair in m
  {
    var f := RequestsFor(rs, id);
    var ps := PairsOf(f);
    DedupKeepsNonCross(ps);
    forall r | r in rs && r.ingredientId == id && !IsCross(r.pair)
      ensures r.pair in DedupPairs(ps)
    {
      var i :| 0 <= i < |f| && f[i] == r;
      assert ps[i] == r.pair;
    }
    forall i | 0 <= i < |f| && IsCross(f[i].pair) && (forall j :: 0 <= j < i ==> !IsCross(f[j].pair))
      ensures f[i].pair in DedupPairs(ps)
    {
      DedupKeepsFirstCross(ps, i);
    }
  }

  /** Nothing is reported exactly when the scan made no request. */
  lemma ImportEmpty(costs: Record<IngredientDoc>, recipes: Record<RecipeDoc>,
                    compounds: Record<CompoundIngredientDoc>,
                    conversions: seq<UnitConversion>, resolve: Resolver)
    ensures FindAllMissingConversionsFromImport(costs, recipes, compounds, conversions, resolve) == [] <==>
            Requests(costs, recipes, compounds, conversions, resolve) == []
  {
    var rs := Requests(costs, recipes, compounds, conversions, resolve);
    var m := FindAllMissingConversionsFromImport(costs, recipes, compounds, conversions, resolve);
    if rs != [] {
      EntryForExists(rs, rs[0].ingredientId);
      assert Get(m, rs[0].ingredientId).Some?;
    }
    if m != [] {
      assert Get(m, m[0].0).Some?;
      EntryForExists(rs, m[0].0);
    }
  }

  /** Where requests come from: a visible recipe line, a compound's yield,
      or a visible line of a compound, each only when the units differ and
      no conversion path exists. */
  lemma RequestOrigin(costs: Record<IngredientDoc>, recipes: Record<RecipeDoc>,
                      compounds: Record<CompoundIngredientDoc>,
                      conversions: seq<UnitConversion>, resolve: Resolver)
    ensures var rec := Values(recipes);
            var cs := Values(compounds);
            forall r :: r in Requests(costs, recipes, compounds, conversions, resolve) <==>
              || (exists i, j :: 0 <= i < |rec| && 0 <= j < |rec[i].ingredients| &&
                                 RecipeLineRequest(rec[i].ingredients[j], costs, compounds, conversions, resolve) == Some(r))
              || (exists i :: 0 <= i < |cs| && YieldRequest(cs[i], conversions, resolve) == Some(r))
              || (exists i, j :: 0 <= i < |cs| && 0 <= j < |cs[i].ingredients| &&
                                 SubLineRequest(cs[i].ingredients[j], costs, conversions, resolve) == Some(r))
  {
    var rec := Values(recipes);
    var cs := Values(compounds);
    var recipeOutcomes := RecipeOutcomes(costs, compounds, conversions, resolve);
    var compoundOutcomes := CompoundOutcomes(costs, conversions, resolve);
    var lineOutcomes := RecipeLineOutcomes(costs, compounds, conversions, resolve);
    var subOutcomes := SubLineOutcomes(costs, conversions, resolve);
    CollectMembers(rec, recipeOutcomes);
    CollectMembers(cs, compoundOutcomes);
    forall i | 0 <= i < |rec| {
      CollectMembers(rec[i].ingredients, lineOutcomes);
    }
    forall i | 0 <= i < |cs| {
      CollectMembers(cs[i].ingredients, subOutcomes);
    }
  }

  /** Every request names two different units with no conversion path
      between them for that ingredient; when the resolver converts within
      the standard volume and mass families, no request is ever for two
      units of one family. */
  lemma RequestsAreGaps(costs: Record<IngredientDoc>, recipes: Record<RecipeDoc>,
                        compounds: Record<CompoundIngredientDoc>,
                        conversions: seq<UnitConversion>, resolve: Resolver)
    ensures forall r :: r in Requests(costs, recipes, compounds, conversions, resolve) ==>
              && r.pair.inputUnit != r.pair.outputUnit
              && !HasConversion(resolve, r.pair.inputUnit, r.pair.outputUnit, r.ingredientId, conversions)
    ensures ValidResolver(resolve) ==>
              forall r :: r in Requests(costs, recipes, compounds, conversions, resolve) ==>
                !SameStandardFamily(r.pair.inputUnit, r.pair.outputUnit)
  {
    RequestOrigin(costs, recipes, compounds, conversions, resolve);
  }
}

/** Worked cases of the import check. */
module ImportCheckExamples {
  import opened Wrappers
  import opened Records
  import opened Schema
  import opened Units
  import opened UnitSelectUtils
  import opened ImportCheck

  const Flour := IngredientDoc("flour", "Flour", "test", Product(1.0, 1.0, "g"), "#ffffff")
  const Cake := RecipeDoc("cake", "Cake", [IngredientLine("flour", Portion(2.0, "cup"), false)])
  const Bread := RecipeDoc("bread", "Bread", [IngredientLine("flour", Portion(8.0, "tbs"), false)])

  const CupRequest := Request("flour", "Flour", ConversionPair("cup", "g"))
  const TbsRequest := Request("flour", "Flour", ConversionPair("tbs", "g"))

  /** The scan asks for cups to grams, then tablespoons to grams. */
  lemma CrossDedupRequests(resolve: Resolver)
    requires resolve("cup", "g", "flour", []).None? && resolve("tbs", "g", "flour", []).None?
    ensures Requests([("flour", Flour)], [("cake", Cake), ("bread", Bread)], [], [], resolve) == [CupRequest, TbsRequest]
  {
    var costs := [("flour", Flour)];
    var recipes := [("cake", Cake), ("bread", Bread)];
    var noCompounds: Record<CompoundIngredientDoc> := [];
    GetCons(costs);
    var lineOutcomes := RecipeLineOutcomes(costs, noCompounds, [], resolve);
    var recipeOutcomes := RecipeOutcomes(costs, noCompounds, [], resolve);
    assert lineOutcomes(Cake.ingredients[0]) == [CupRequest];
    assert lineOutcomes(Bread.ingredients[0]) == [TbsRequest];
    assert Cake.ingredients[..0] == [] && Bread.ingredients[..0] == [];
    assert recipeOutcomes(Cake) == [CupRequest];
    assert recipeOutcomes(Bread) == [TbsRequest];
    var rec := Values(recipes);
    assert rec == [Cake, Bread];
    assert rec[..1] == [Cake] && rec[..1][..0] == [];
    assert Collect(rec[..1], recipeOutcomes) == Collect(rec[..1][..0], recipeOutcomes) + recipeOutcomes(Cake);
    assert Collect(rec, recipeOutcomes) == Collect(rec[..1], recipeOutcomes) + recipeOutcomes(Bread);
    assert Values(noCompounds) == [];
  }

  /** Filing them keeps the first: tablespoons to grams is the same
      volume-to-mass gap for the same ingredient. */
  lemma CrossDedupScan()
    ensures Scan([CupRequest, TbsRequest]).missing == [("flour", MissingEntry("Flour", [ConversionPair("cup", "g")]))]
  {
    var rs := [CupRequest, TbsRequest];
    assert rs[..1] == [CupRequest] && rs[..1][..0] == [];
    var entry := MissingEntry("Flour", [ConversionPair("cup", "g")]);
    assert [CupRequest][..0] == [];
    assert Scan([CupRequest]) == AddMissingConversion(ScanState([], {}), CupRequest);
    assert GetUnitType("cup") == "volume" && GetUnitType("g") == "mass" && GetUnitType("tbs") == "volume";
    assert Keys<MissingEntry>([]) == [];
    assert Set<MissingEntry>([], "flour", entry) == [("flour", entry)];
    var st1 := Scan([CupRequest]);
    assert st1 == ScanState([("flour", MissingEntry("Flour", [ConversionPair("cup", "g")]))],
                            {CrossKey("flour", "volume", "mass")});
  }

  /** Flour in cups in one recipe and in tablespoons in another, priced in
      grams: one volume-to-mass conversion is asked for, under the name
      Flour. */
  lemma CrossDedupPerIngredient(resolve: Resolver)
    requires resolve("cup", "g", "flour", []).None? && resolve("tbs", "g", "flour", []).None?
    ensures FindAllMissingConversionsFromImport([("flour", Flour)], [("cake", Cake), ("bread", Bread)], [], [], resolve) ==
            [("flour", MissingEntry("Flour", [ConversionPair("cup", "g")]))]
  {
    CrossDedupRequests(resolve);
    CrossDedupScan();
  }
}
