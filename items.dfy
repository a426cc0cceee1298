/**
 * The values the search and detail routes receive from upstream sources:
 * result items, source registrations and response bodies, with the small
 * expression-level rules the routes apply to them (`list || data` selection,
 * provenance stamping, reading the release year).
 */
module Items {
  import opened Wrappers
  import Numbers

  /** An upstream result item: its properties, each value as `String(value)` renders it. */
  datatype Item = Item(fields: map<string, string>)

  /** A registered source, one entry of the site registry. */
  datatype Site = Site(key: string, name: string, api: string, active: bool)

  /** One property of an upstream response body, as far as the routes inspect it. */
  datatype Field = Absent | Scalar(truthy: bool) | List(items: seq<Item>)

  /** An upstream response body: JSON `null`, a bare string, or an object with `list` and `data`. */
  datatype Payload = Null | Text(text: string) | Record(list: Field, data: Field)

  const SiteKeyField := "site_key"
  const SiteNameField := "site_name"
  const YearField := "vod_year"

  /** JavaScript truthiness of a property value: an array is truthy even when empty. */
  predicate Truthy(f: Field) {
    match f
    case Absent => false
    case Scalar(t) => t
    case List(_) => true
  }

  predicate NonEmptyList(f: Field) {
    f.List? && |f.items| > 0
  }

  /**
   * `{...item, site_key, site_name}`: the two provenance fields are set to the
   * source's key and name, replacing upstream fields of the same name, and every
   * other field is kept as it was.
   */
  function Stamp(item: Item, site: Site): (r: Item)
    ensures SiteKeyField in r.fields && r.fields[SiteKeyField] == site.key
    ensures SiteNameField in r.fields && r.fields[SiteNameField] == site.name
    ensures r.fields.Keys == item.fields.Keys + {SiteKeyField, SiteNameField}
    ensures forall f :: f in item.fields && f != SiteKeyField && f != SiteNameField ==> r.fields[f] == item.fields[f]
  {
    Item(item.fields[SiteKeyField := site.key][SiteNameField := site.name])
  }

  /** `list.map(item => stamp(item))`. */
  function StampAll(list: seq<Item>, site: Site): (r: seq<Item>)
    ensures |r| == |list|
    ensures forall i :: 0 <= i < |list| ==> r[i] == Stamp(list[i], site)
  {
    if list == [] then [] else [Stamp(list[0], site)] + StampAll(list[1..], site)
  }

  /**
   * `response.data.list || response.data.data`, accepted only when it is an
   * array with at least one item. A body that is not an object (a string, or
   * `null`, which makes the property access throw) yields nothing.
   */
  function SelectList(p: Payload): (r: Option<seq<Item>>)
    ensures r.Some? ==> |r.value| > 0
    ensures p.Record? && NonEmptyList(p.list) ==> r == Some(p.list.items)
    ensures p.Record? && !Truthy(p.list) && NonEmptyList(p.data) ==> r == Some(p.data.items)
    ensures r.Some? ==> p.Record? && (NonEmptyList(p.list) || (!Truthy(p.list) && NonEmptyList(p.data)))
  {
    match p
    case Record(list, data) =>
      var chosen := if Truthy(list) then list else data;
      if NonEmptyList(chosen) then Some(chosen.items) else None
    case _ => None
  }

  /** An empty `list` array is truthy, so it hides a non-empty `data` array. */
  lemma EmptyListHidesData(data: seq<Item>)
    ensures SelectList(Record(List([]), List(data))) == None
  {
  }

  /** `parseInt(item.vod_year)`; a missing field reads as `"undefined"`, which is NaN. */
  function YearOf(item: Item): (r: Option<int>)
    ensures YearField !in item.fields ==> r.None?
  {
    if YearField in item.fields then Numbers.ParseInt(item.fields[YearField]) else None
  }

  /** Stamping does not touch the release year. */
  lemma StampKeepsYear(item: Item, site: Site)
    ensures YearOf(Stamp(item, site)) == YearOf(item)
  {
  }
}
