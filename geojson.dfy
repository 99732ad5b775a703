/**
 * A model of the GeoJSON document builder: one object holding one mutable
 * GeoJSON document whose `type` tag selects a FeatureCollection, a
 * GeometryCollection or a single-geometry shape, with operations that
 * append, replace and remove features, and the validators they call.
 */
module GeoJsonBuilder {

  datatype Option<T> = None | Some(value: T)

  /** An opaque JSON value: properties and coordinates are stored, never inspected. */
  datatype Value =
    | Null
    | Bool(b: bool)
    | Number(n: int)
    | Text(s: string)
    | List(items: seq<Value>)
    | Object(fields: map<string, Value>)

  type Properties = map<string, Value>

  /** A coordinates array; its nesting depends on the geometry type and is not checked. */
  type Coordinates = seq<Value>

  /** A geometry object `{type, coordinates}`; `tag` is None when the object has no `type` field. */
  datatype Geometry = Geometry(tag: Option<string>, coordinates: Coordinates)

  /** A feature object `{type: "Feature", id, properties, geometry}`; `id` is None when it has none. */
  datatype Feature = Feature(id: Option<int>, properties: Properties, geometry: Geometry)

  /** The document the builder holds, by the shape its `type` tag selects. */
  datatype Doc =
    | FeatureCollection(features: seq<Feature>)
    | GeometryCollection(geometries: seq<Geometry>)
    | Single(tag: string, coordinates: Coordinates)
  {
    /** The document's `type` field. */
    function Type(): string {
      match this
      case FeatureCollection(_) => FeatureCollectionType
      case GeometryCollection(_) => GeometryCollectionType
      case Single(t, _) => t
    }
  }

  /** An object handed to `add`, in the shape the document's mode reads it. */
  datatype Element =
    | FeatureInput(geometry: Geometry, properties: Option<Properties>)  // its `geometry` and `properties` are read
    | GeometryInput(geometry: Geometry)                                 // stored as one of `geometries`
    | DocumentInput(doc: Doc)                                           // becomes the whole document

  datatype Error =
    | NotFeatureCollection(found: string)
    | IllegalGeometryType
    | MissingGeometryType

  datatype Result<T> = Ok(value: T) | Err(error: Error)

  const FeatureCollectionType := "FeatureCollection"
  const GeometryCollectionType := "GeometryCollection"

  /** The geometry-type allow-list, in the order `throwErrorIfisIllegalType` lists it. */
  const AuthorizedTypes: seq<string> :=
    ["Feature", "GeometryCollection", "LineString", "MultiLineString",
     "MultiPoint", "MultiPolygon", "Point", "Polygon"]

  /** The text each error carries. */
  function Message(e: Error): (m: string)
    ensures e.NotFeatureCollection? ==> |m| == |e.found| + 33
    ensures e.NotFeatureCollection? ==> m[27..27 + |e.found|] == e.found
  {
    match e
    case NotFeatureCollection(found) => "expect a FeatureCollection " + found + " given"
    case IllegalGeometryType => "Illegal geometry.type given"
    case MissingGeometryType => "geometry.type is required"
  }

  /** Different errors never carry the same text; in particular the found type can be read back. */
  lemma MessageInjective(e1: Error, e2: Error)
    requires Message(e1) == Message(e2)
    ensures e1 == e2
  {
    // Texts of different kinds already differ in length.
    if e1.NotFeatureCollection? && e2.NotFeatureCollection? {
      var prefix := "expect a FeatureCollection ";
      assert e1.found == Message(e1)[|prefix|..|prefix| + |e1.found|];
      assert e2.found == Message(e2)[|prefix|..|prefix| + |e2.found|];
    }
  }

  // ---------------------------------------------------------------------
  // Document shapes chosen at construction

  function UseFeatureCollection(): (d: Doc)
    ensures d.Type() == FeatureCollectionType && d.FeatureCollection? && d.features == []
  {
    FeatureCollection([])
  }

  function UseGeometryCollectionType(): (d: Doc)
    ensures d.Type() == GeometryCollectionType && d.GeometryCollection? && d.geometries == []
  {
    GeometryCollection([])
  }

  /** Any string becomes the tag verbatim: the allow-list is not consulted. */
  function UseDefaultType(kind: string): (d: Doc)
    ensures d.Type() == kind && d.Single? && d.coordinates == []
  {
    Single(kind, [])
  }

  /**
   * The invariant the builder keeps: a single-geometry document does not
   * carry a collection's tag, so the tag tests below pick out the variant.
   */
  predicate WellFormed(d: Doc) {
    d.Single? ==> d.tag != FeatureCollectionType && d.tag != GeometryCollectionType
  }

  predicate IsAFeatureCollection(d: Doc)
    ensures WellFormed(d) ==> (IsAFeatureCollection(d) <==> d.FeatureCollection?)
  {
    d.Type() == FeatureCollectionType
  }

  predicate IsAGeometryCollection(d: Doc)
    ensures WellFormed(d) ==> (IsAGeometryCollection(d) <==> d.GeometryCollection?)
  {
    d.Type() == GeometryCollectionType
  }

  // ---------------------------------------------------------------------
  // Validators: each yields the error it would throw, or None

  function FeatureCollectionCheck(d: Doc): (e: Option<Error>)
    ensures e.None? <==> IsAFeatureCollection(d)
    ensures e.Some? ==> e.value.NotFeatureCollection? && e.value.found == d.Type()
  {
    if !IsAFeatureCollection(d) then Some(NotFeatureCollection(d.Type())) else None
  }

  /** Membership in the allow-list; an absent type (JavaScript undefined) is never a member. */
  predicate IsAuthorized(tag: Option<string>)
    ensures IsAuthorized(tag) ==> tag.Some?
    ensures IsAuthorized(tag) <==> (tag in
      {Some("Feature"), Some("GeometryCollection"), Some("LineString"), Some("MultiLineString"),
       Some("MultiPoint"), Some("MultiPolygon"), Some("Point"), Some("Polygon")})
  {
    tag.Some? && tag.value in AuthorizedTypes
  }

  function IllegalTypeCheck(tag: Option<string>): (e: Option<Error>)
    ensures e.None? <==> IsAuthorized(tag)
    ensures e.Some? ==> e.value == IllegalGeometryType
  {
    if !IsAuthorized(tag) then Some(IllegalGeometryType) else None
  }

  function NoTypeGivenCheck(g: Geometry): (e: Option<Error>)
    ensures e.None? <==> g.tag.Some?
    ensures e.Some? ==> e.value == MissingGeometryType
  {
    if g.tag.None? then Some(MissingGeometryType) else None
  }

  /**
   * The two geometry checks in the order `addFeature` and `updateFeature`
   * run them: the allow-list first, then the presence of `type`. An
   * untyped geometry already fails the first, so the second never fires.
   */
  function ValidateGeometry(g: Geometry): (e: Option<Error>)
    ensures e.None? <==> IsAuthorized(g.tag)
    ensures e.Some? ==> e.value == IllegalGeometryType
    ensures g.tag.None? ==> e == Some(IllegalGeometryType)
    ensures e != Some(MissingGeometryType)
  {
    var illegal := IllegalTypeCheck(g.tag);
    if illegal.Some? then illegal else NoTypeGivenCheck(g)
  }

  // ---------------------------------------------------------------------
  // Pure helpers: they build values and touch no document

  /** `feature(element, properties)`: a feature without an id. */
  function MakeFeature(geometry: Geometry, properties: Properties): (f: Feature)
    ensures f.id.None?
    ensures forall id: int :: f.id != Some(id)
    ensures f.geometry == geometry && f.properties == properties
  {
    Feature(None, properties, geometry)
  }

  /** `point(coordinates)`; like the two below it always passes the geometry checks. */
  function Point(coordinates: Coordinates): (g: Geometry)
    ensures g.tag == Some("Point") && g.coordinates == coordinates
    ensures ValidateGeometry(g).None?
  {
    Geometry(Some("Point"), coordinates)
  }

  function MultiPoint(coordinates: Coordinates): (g: Geometry)
    ensures g.tag == Some("MultiPoint") && g.coordinates == coordinates
    ensures ValidateGeometry(g).None?
  {
    Geometry(Some("MultiPoint"), coordinates)
  }

  /** `polygone(coordinates)`. */
  function Polygon(coordinates: Coordinates): (g: Geometry)
    ensures g.tag == Some("Polygon") && g.coordinates == coordinates
    ensures ValidateGeometry(g).None?
  {
    Geometry(Some("Polygon"), coordinates)
  }

  /** The `{}` that `addFeature` substitutes for missing properties. */
  function PropertiesOrDefault(p: Option<Properties>): (r: Properties)
    ensures p.Some? ==> r == p.value
    ensures p.None? ==> r == map[]
  {
    if p.Some? then p.value else map[]
  }

  /**
   * An integer stand-in for the planar distance: the SQUARE of the
   * Euclidean distance between two points, with no floating point.
   */
  function SquaredDistance(from: (int, int), to: (int, int)): (d: nat)
    ensures d == 0 <==> from == to
  {
    var dx, dy := to.0 - from.0, to.1 - from.1;
    assert dx * dx >= 0 && dy * dy >= 0;
    assert dx != 0 ==> dx * dx > 0;
    assert dy != 0 ==> dy * dy > 0;
    dx * dx + dy * dy
  }

  // ---------------------------------------------------------------------
  // Specification of `updateFeature`

  /** Every feature whose id equals `id` replaced by `f`, the others kept, in place. */
  function Replaced(s: seq<Feature>, id: int, f: Feature): seq<Feature>
  {
    if s == [] then []
    else [if s[0].id == Some(id) then f else s[0]] + Replaced(s[1..], id, f)
  }

  lemma {:induction false} ReplacedAt(s: seq<Feature>, id: int, f: Feature, k: nat)
    requires k < |s|
    ensures |Replaced(s, id, f)| == |s|
    ensures Replaced(s, id, f)[k] == if s[k].id == Some(id) then f else s[k]
  {
    if k > 0 {
      ReplacedAt(s[1..], id, f, k - 1);
    } else if |s| > 1 {
      ReplacedAt(s[1..], id, f, 0);
    }
  }

  lemma {:induction false} ReplacedLength(s: seq<Feature>, id: int, f: Feature)
    ensures |Replaced(s, id, f)| == |s|
  {
    if s != [] {
      ReplacedLength(s[1..], id, f);
    }
  }

  /** With no feature carrying `id`, the update changes nothing. */
  lemma {:induction false} ReplacedNoMatch(s: seq<Feature>, id: int, f: Feature)
    requires forall k :: 0 <= k < |s| ==> s[k].id != Some(id)
    ensures Replaced(s, id, f) == s
  {
    if s != [] {
      ReplacedNoMatch(s[1..], id, f);
    }
  }

  /** Repeating the same update changes nothing more. */
  lemma {:induction false} ReplacedIdempotent(s: seq<Feature>, id: int, f: Feature)
    ensures Replaced(Replaced(s, id, f), id, f) == Replaced(s, id, f)
  {
    var once := Replaced(s, id, f);
    ReplacedLength(s, id, f);
    ReplacedLength(once, id, f);
    forall k | 0 <= k < |s|
      ensures Replaced(once, id, f)[k] == once[k]
    {
      ReplacedAt(s, id, f, k);
      ReplacedAt(once, id, f, k);
    }
  }

  /** Updating with an id-less feature (as `feature(...)` builds) leaves no feature with that id. */
  lemma {:induction false} UpdateWithoutIdRemovesId(s: seq<Feature>, id: int, g: Geometry, p: Properties)
    ensures forall k :: 0 <= k < |Replaced(s, id, MakeFeature(g, p))| ==>
      Replaced(s, id, MakeFeature(g, p))[k].id != Some(id)
  {
    ReplacedLength(s, id, MakeFeature(g, p));
    forall k | 0 <= k < |s|
      ensures Replaced(s, id, MakeFeature(g, p))[k].id != Some(id)
    {
      ReplacedAt(s, id, MakeFeature(g, p), k);
    }
  }

  // ---------------------------------------------------------------------
  // The allow-list invariant of a FeatureCollection

  /** Every feature's geometry type is on the allow-list. */
  predicate AuthorizedFeatures(fs: seq<Feature>) {
    forall k :: 0 <= k < |fs| ==> IsAuthorized(fs[k].geometry.tag)
  }

  /** A FeatureCollection holds only features whose geometry type is on the allow-list. */
  predicate AllAuthorized(d: Doc) {
    d.FeatureCollection? ==> AuthorizedFeatures(d.features)
  }

  /** An update with an authorized feature keeps every feature authorized. */
  lemma {:induction false} ReplacedAuthorized(s: seq<Feature>, id: int, f: Feature)
    requires AuthorizedFeatures(s) && IsAuthorized(f.geometry.tag)
    ensures AuthorizedFeatures(Replaced(s, id, f))
  {
    ReplacedLength(s, id, f);
    forall k | 0 <= k < |s|
      ensures IsAuthorized(Replaced(s, id, f)[k].geometry.tag)
    {
      ReplacedAt(s, id, f, k);
    }
  }

  // ---------------------------------------------------------------------
  // Specification of `removeFeature`, as written and as intended

  /**
   * JavaScript's `Array.prototype.splice(start, deleteCount)` on the array
   * `s`: the array without the block it deletes. A negative start counts
   * from the end; both arguments are clamped to the array.
   */
  function Splice<T>(s: seq<T>, start: int, deleteCount: int): (r: seq<T>)
    ensures |r| <= |s|
    ensures deleteCount <= 0 ==> r == s
    ensures start >= |s| ==> r == s
    ensures start < 0 && |s| + start >= 0 && deleteCount == 1 ==> r == s[..|s| + start] + s[|s| + start + 1..]
  {
    var from := if start < 0 then (if |s| + start < 0 then 0 else |s| + start)
                else (if start > |s| then |s| else start);
    var count := if deleteCount < 0 then 0
                 else if deleteCount > |s| - from then |s| - from else deleteCount;
    s[..from] + s[from + count..]
  }

  /**
   * What `removeFeature(id)` does to `features`: the filtered array is never
   * an element of `features`, so `indexOf` gives -1 and `splice(-1, 1)`
   * deletes the last feature, whatever `id` is.
   */
  function RemoveAsWritten(features: seq<Feature>, id: int): (r: seq<Feature>)
    ensures |features| > 0 ==> r == features[..|features| - 1]
    ensures |features| == 0 ==> r == []
  {
    Splice(features, -1, 1)
  }

  /** The as-written removal undoes the last append, whichever id it is asked for. */
  lemma RemoveUndoesAppend(features: seq<Feature>, f: Feature, id: int)
    ensures RemoveAsWritten(features + [f], id) == features
  {
  }

  /** A witness that the as-written removal ignores `id`. */
  lemma RemoveFeatureIgnoresId()
    ensures var f1 := Feature(Some(1), map[], Point([]));
            var f2 := Feature(Some(2), map[], Point([]));
            RemoveAsWritten([f1, f2], 1) == [f1] && RemoveFirstWithId([f1, f2], 1) == [f2]
  {
  }

  /** The intended removal: the first feature whose id equals `id`, or nothing when none does. */
  function RemoveFirstWithId(features: seq<Feature>, id: int): (r: seq<Feature>)
    ensures (forall k :: 0 <= k < |features| ==> features[k].id != Some(id)) ==> r == features
    ensures (exists k :: 0 <= k < |features| && features[k].id == Some(id)) ==> |r| == |features| - 1
    ensures multiset(r) <= multiset(features)
  {
    if features == [] then []
    else
      assert features == [features[0]] + features[1..];
      if features[0].id == Some(id) then features[1..]
    else [features[0]] + RemoveFirstWithId(features[1..], id)
  }

  /** When `k` is the first index carrying `id`, exactly that feature goes and the order is kept. */
  lemma {:induction false} RemoveFirstWithIdAt(features: seq<Feature>, id: int, k: nat)
    requires k < |features| && features[k].id == Some(id)
    requires forall j :: 0 <= j < k ==> features[j].id != Some(id)
    ensures RemoveFirstWithId(features, id) == features[..k] + features[k + 1..]
  {
    if k > 0 {
      RemoveFirstWithIdAt(features[1..], id, k - 1);
      assert features[1..][..k - 1] == features[1..k];
      assert features[1..][k..] == features[k + 1..];
      assert features[..k] == [features[0]] + features[1..k];
    }
  }

  /** The intended removal undoes an `addFeature` whose id no earlier feature carries. */
  lemma RemoveFirstWithIdUndoesAppend(features: seq<Feature>, id: int, p: Properties, g: Geometry)
    requires forall k :: 0 <= k < |features| ==> features[k].id != Some(id)
    ensures RemoveFirstWithId(features + [Feature(Some(id), p, g)], id) == features
  {
    var s := features + [Feature(Some(id), p, g)];
    RemoveFirstWithIdAt(s, id, |features|);
    assert s[..|features|] == features;
  }

  // ---------------------------------------------------------------------
  // Specification of `add`

  /** The shapes `add` reads in each mode; a single-geometry document needs a first element. */
  predicate Fits(d: Doc, elements: seq<Element>) {
    match d
    case FeatureCollection(_) => forall k :: 0 <= k < |elements| ==> elements[k].FeatureInput?
    case GeometryCollection(_) => forall k :: 0 <= k < |elements| ==> elements[k].GeometryInput?
    case Single(_, _) => |elements| > 0 && elements[0].DocumentInput? && WellFormed(elements[0].doc)
  }

  /** The index of the first element whose geometry `addFeature` rejects, or |elements| if none. */
  function FirstRejected(elements: seq<Element>): (k: nat)
    requires forall k :: 0 <= k < |elements| ==> elements[k].FeatureInput?
    ensures k <= |elements|
    ensures forall j :: 0 <= j < k ==> IsAuthorized(elements[j].geometry.tag)
    ensures k < |elements| ==> !IsAuthorized(elements[k].geometry.tag)
    ensures k == |elements| <==> forall j :: 0 <= j < |elements| ==> IsAuthorized(elements[j].geometry.tag)
  {
    if elements == [] then 0
    else if !IsAuthorized(elements[0].geometry.tag) then 0
    else 1 + FirstRejected(elements[1..])
  }

  /** `f` is what `addFeature` pushes for the element `e`, under some generated id. */
  predicate Stamped(f: Feature, e: Element)
    requires e.FeatureInput?
  {
    f.id.Some? && f.id.value >= 0 && f.geometry == e.geometry && f.properties == PropertiesOrDefault(e.properties)
  }

  /** `d` is `before` with the first `n` elements appended as features, in order. */
  predicate AppendedUpTo(before: seq<Feature>, d: Doc, elements: seq<Element>, n: nat)
    requires n <= |elements| && forall k :: 0 <= k < |elements| ==> elements[k].FeatureInput?
  {
    && d.FeatureCollection?
    && |d.features| == |before| + n
    && d.features[..|before|] == before
    && forall j :: 0 <= j < n ==> Stamped(d.features[|before| + j], elements[j])
  }

  /** The geometries a GeometryCollection receives from `add`, verbatim and in order. */
  function GeometriesOf(elements: seq<Element>): (gs: seq<Geometry>)
    requires forall k :: 0 <= k < |elements| ==> elements[k].GeometryInput?
    ensures |gs| == |elements|
    ensures forall k :: 0 <= k < |gs| ==> elements[k] == GeometryInput(gs[k])
  {
    seq(|elements|, k requires 0 <= k < |elements| => elements[k].geometry)
  }

  // ---------------------------------------------------------------------
  // The builder

  class GeoJson {
    var doc: Doc

    ghost predicate Valid()
      reads this
    {
      WellFormed(doc)
    }

    /** The FeatureCollection shape by default, the GeometryCollection shape by name, else a single geometry. */
    constructor (kind: string := "FeatureCollection")
      ensures Valid() && AllAuthorized(doc)
      ensures doc.Type() == kind
      ensures kind == FeatureCollectionType ==> doc == FeatureCollection([])
      ensures kind == GeometryCollectionType ==> doc == GeometryCollection([])
      ensures kind != FeatureCollectionType && kind != GeometryCollectionType ==> doc == Single(kind, [])
    {
      if kind == FeatureCollectionType {
        doc := UseFeatureCollection();
      } else if kind == GeometryCollectionType {
        doc := UseGeometryCollectionType();
      } else {
        doc := UseDefaultType(kind);
      }
    }

    function GetType(): (t: string)
      reads this
      ensures Valid() ==> (t == FeatureCollectionType <==> doc.FeatureCollection?)
      ensures Valid() ==> (t == GeometryCollectionType <==> doc.GeometryCollection?)
      ensures doc.Single? ==> t == doc.tag
    {
      doc.Type()
    }

    /**
     * Appends `{type: "Feature", id, properties, geometry}`; `id` stands for
     * the generated one. Fails, changing nothing, outside a FeatureCollection
     * or for a geometry type off the allow-list.
     */
    method AddFeature(geometry: Geometry, id: nat, properties: Properties := map[]) returns (r: Result<GeoJson>)
      requires Valid()
      modifies this
      ensures Valid()
      ensures AllAuthorized(old(doc)) ==> AllAuthorized(doc)
      ensures !IsAFeatureCollection(old(doc)) ==>
        r == Err(NotFeatureCollection(old(doc).Type())) && doc == old(doc)
      ensures IsAFeatureCollection(old(doc)) && !IsAuthorized(geometry.tag) ==>
        r == Err(IllegalGeometryType) && doc == old(doc)
      ensures IsAFeatureCollection(old(doc)) && IsAuthorized(geometry.tag) ==>
        r == Ok(this) && doc == FeatureCollection(old(doc).features + [Feature(Some(id), properties, geometry)])
    {
      var e := FeatureCollectionCheck(doc);
      if e.Some? {
        return Err(e.value);
      }
      // the allow-list check, then the presence check
      e := ValidateGeometry(geometry);
      if e.Some? {
        return Err(e.value);
      }
      doc := doc.(features := doc.features + [Feature(Some(id), properties, geometry)]);
      r := Ok(this);
    }

    /**
     * Drops the LAST feature when there is one, whatever `id` is; an empty
     * collection is left alone. Fails, changing nothing, outside a FeatureCollection.
     */
    method RemoveFeature(id: int) returns (r: Result<GeoJson>)
      requires Valid()
      modifies this
      ensures Valid()
      ensures AllAuthorized(old(doc)) ==> AllAuthorized(doc)
      ensures !IsAFeatureCollection(old(doc)) ==>
        r == Err(NotFeatureCollection(old(doc).Type())) && doc == old(doc)
      ensures IsAFeatureCollection(old(doc)) ==>
        r == Ok(this) && doc == FeatureCollection(RemoveAsWritten(old(doc).features, id))
    {
      var e := FeatureCollectionCheck(doc);
      if e.Some? {
        return Err(e.value);
      }
      // The filtered array is a fresh array, always truthy, and never an
      // element of `features`: its index there is -1.
      var at := -1;
      doc := FeatureCollection(Splice(doc.features, at, 1));
      r := Ok(this);
    }

    /**
     * Overwrites every feature whose id equals `id` with `feature` itself.
     * Validates first; on failure nothing changes.
     */
    method UpdateFeature(id: int, feature: Feature) returns (r: Result<GeoJson>)
      requires Valid()
      modifies this
      ensures Valid()
      ensures AllAuthorized(old(doc)) ==> AllAuthorized(doc)
      ensures !IsAFeatureCollection(old(doc)) ==>
        r == Err(NotFeatureCollection(old(doc).Type())) && doc == old(doc)
      ensures IsAFeatureCollection(old(doc)) && !IsAuthorized(feature.geometry.tag) ==>
        r == Err(IllegalGeometryType) && doc == old(doc)
      ensures IsAFeatureCollection(old(doc)) && IsAuthorized(feature.geometry.tag) ==>
        r == Ok(this) && doc == FeatureCollection(Replaced(old(doc).features, id, feature))
    {
      var e := FeatureCollectionCheck(doc);
      if e.Some? {
        return Err(e.value);
      }
      // the allow-list check, then the presence check
      e := ValidateGeometry(feature.geometry);
      if e.Some? {
        return Err(e.value);
      }
      ghost var before := doc.features;
      var i := 0;
      while i < |doc.features|
        invariant doc.FeatureCollection? && |doc.features| == |before|
        invariant 0 <= i <= |before|
        invariant forall j :: 0 <= j < i ==>
          doc.features[j] == if before[j].id == Some(id) then feature else before[j]
        invariant forall j :: i <= j < |before| ==> doc.features[j] == before[j]
      {
        if doc.features[i].id == Some(id) {
          doc := FeatureCollection(doc.features[i := feature]);
        }
        i := i + 1;
      }
      ReplacedLength(before, id, feature);
      forall k | 0 <= k < |before|
        ensures doc.features[k] == Replaced(before, id, feature)[k]
      {
        ReplacedAt(before, id, feature, k);
      }
      if AllAuthorized(old(doc)) {
        ReplacedAuthorized(before, id, feature);
      }
      r := Ok(this);
    }

    /**
     * In a FeatureCollection, `addFeature` on each element in order, each
     * with a generated id, stopping at the first rejected one (those before
     * it stay appended). In a GeometryCollection, `geometries` becomes the
     * elements. Otherwise the first element becomes the whole document.
     */
    method Add(elements: seq<Element>) returns (r: Result<Doc>)
      requires Valid() && Fits(doc, elements)
      modifies this
      ensures Valid()
      ensures AllAuthorized(old(doc)) && !old(doc).Single? ==> AllAuthorized(doc)
      ensures old(doc).FeatureCollection? ==>
        && AppendedUpTo(old(doc).features, doc, elements, FirstRejected(elements))
        && r == if FirstRejected(elements) == |elements| then Ok(doc) else Err(IllegalGeometryType)
      ensures old(doc).GeometryCollection? ==>
        doc == GeometryCollection(GeometriesOf(elements)) && r == Ok(doc)
      ensures old(doc).Single? ==> doc == elements[0].doc && r == Ok(doc)
    {
      if IsAFeatureCollection(doc) {
        ghost var before := doc.features;
        var i := 0;
        while i < |elements|
          invariant 0 <= i <= |elements|
          invariant forall j :: 0 <= j < i ==> IsAuthorized(elements[j].geometry.tag)
          invariant Valid() && AppendedUpTo(before, doc, elements, i)
          invariant AllAuthorized(old(doc)) ==> AllAuthorized(doc)
        {
          var element := elements[i];
          var id: nat :| true;
          ghost var was := doc.features;
          assert AppendedUpTo(before, FeatureCollection(was), elements, i);
          var added := AddFeature(element.geometry, id, PropertiesOrDefault(element.properties));
          if added.Err? {
            r := Err(added.error);
            return;
          }
          assert doc.features == was + [Feature(Some(id), PropertiesOrDefault(element.properties), element.geometry)];
          assert doc.features[..|before|] == was[..|before|];
          forall j | 0 <= j < i + 1
            ensures Stamped(doc.features[|before| + j], elements[j])
          {
            if j < i {
              assert doc.features[|before| + j] == was[|before| + j];
            }
          }
          i := i + 1;
        }
        r := Ok(doc);
      } else if IsAGeometryCollection(doc) {
        doc := GeometryCollection(GeometriesOf(elements));
        r := Ok(doc);
      } else {
        doc := elements[0].doc;
        r := Ok(doc);
      }
    }
  }

  /** A caller adding, rejecting and updating features. */
  method FeatureSession()
  {
    var b := new GeoJson();
    assert b.doc == FeatureCollection([]);
    var name := map["name" := Text("a")];
    var r := b.AddFeature(Point([Number(1), Number(2)]), 7, name);
    assert r.Ok? && b.doc == FeatureCollection([Feature(Some(7), name, Point([Number(1), Number(2)]))]);
    r := b.AddFeature(Geometry(Some("Circle"), []), 8);
    assert r == Err(IllegalGeometryType) && |b.doc.features| == 1;
    r := b.UpdateFeature(7, MakeFeature(Polygon([]), map[]));
    assert r.Ok? && b.doc.features == [Feature(None, map[], Polygon([]))];
  }

  /** A caller removing, by an id no feature carries, from a collection of one feature. */
  method RemoveSession(b: GeoJson, f: Feature)
    requires b.Valid() && b.doc == FeatureCollection([f]) && f.id != Some(12345)
    modifies b
  {
    var r := b.RemoveFeature(12345);
    assert RemoveAsWritten([f], 12345) == [];
    assert r.Ok? && b.doc.features == [];
    r := b.RemoveFeature(12345);
    assert r.Ok? && b.doc.features == [];
  }

  /** A caller of the two non-feature modes of `add`. */
  method AddSession()
  {
    var g := new GeoJson("GeometryCollection");
    assert g.doc == GeometryCollection([]);
    var elements := [GeometryInput(Point([])), GeometryInput(MultiPoint([]))];
    var d := g.Add(elements);
    assert g.doc == GeometryCollection(GeometriesOf(elements));
    assert elements[0] == GeometryInput(GeometriesOf(elements)[0]);
    assert elements[1] == GeometryInput(GeometriesOf(elements)[1]);
    assert GeometriesOf(elements) == [Point([]), MultiPoint([])];
    assert d == Ok(GeometryCollection([Point([]), MultiPoint([])]));
    var single := new GeoJson("Point");
    var r := single.AddFeature(Point([]), 9);
    assert r == Err(NotFeatureCollection("Point")) && single.doc == Single("Point", []);
    d := single.Add([DocumentInput(Single("Polygon", []))]);
    assert single.GetType() == "Polygon";
  }

  /**
   * A caller whose single-geometry document becomes, through `add`, a
   * FeatureCollection holding a geometry type off the allow-list.
   */
  method BypassSession()
  {
    var b := new GeoJson("Point");
    var circle := Feature(Some(1), map[], Geometry(Some("Circle"), []));
    var d := b.Add([DocumentInput(FeatureCollection([circle]))]);
    assert b.Valid() && b.doc == FeatureCollection([circle]);
    assert !IsAuthorized(b.doc.features[0].geometry.tag);
    assert !AllAuthorized(b.doc);
  }
}
