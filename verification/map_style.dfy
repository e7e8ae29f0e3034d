/**
 * The base-map style switcher: an index into a fixed list of styles, seeded
 * from a persisted preference and written back whenever the style changes.
 */
module MapStyles {
  import opened Optional

  datatype MapStyle = OsMap | Mapbox

  /** The enum's string values, which are what gets persisted. */
  function StyleName(style: MapStyle): string {
    match style
    case OsMap => "OS_MAP"
    case Mapbox => "MAPBOX"
  }

  const StorageKey: string := "gpx-library-map-style"

  const StyleList: seq<MapStyle> := [OsMap, Mapbox]

  /** The browser's key-value store. */
  type Store = map<string, string>

  /** `getItem`: the stored string, or `None` for `null`. */
  function GetItem(store: Store, key: string): Option<string> {
    if key in store then Some(store[key]) else None
  }

  /** `mapStyles.indexOf(item)` from position `from` on: the first style whose value equals `item`, or -1. */
  function IndexFrom(styles: seq<MapStyle>, item: Option<string>, from: nat): (r: int)
    requires from <= |styles|
    ensures -1 <= r < |styles|
    ensures r >= 0 ==> from <= r && item == Some(StyleName(styles[r]))
    ensures r >= 0 ==> forall j :: from <= j < r ==> item != Some(StyleName(styles[j]))
    ensures r == -1 ==> forall j :: from <= j < |styles| ==> item != Some(StyleName(styles[j]))
    decreases |styles| - from
  {
    if from == |styles| then -1
    else if item == Some(StyleName(styles[from])) then from
    else IndexFrom(styles, item, from + 1)
  }

  /** `cachedMapStyleIndex`, read once when the program loads. */
  function CachedMapStyleIndex(store: Store): (r: int)
    ensures -1 <= r < |StyleList|
    ensures r >= 0 ==> GetItem(store, StorageKey) == Some(StyleName(StyleList[r]))
    ensures r == -1 ==> forall j :: 0 <= j < |StyleList| ==> GetItem(store, StorageKey) != Some(StyleName(StyleList[j]))
  {
    IndexFrom(StyleList, GetItem(store, StorageKey), 0)
  }

  /** `updateMapStyleCache(style)`: persist the style's value under the preference key. */
  function UpdateMapStyleCache(store: Store, style: MapStyle): (r: Store)
    ensures GetItem(r, StorageKey) == Some(StyleName(style))
    ensures forall k :: k != StorageKey ==> GetItem(r, k) == GetItem(store, k)
  {
    store[StorageKey := StyleName(style)]
  }

  /** The switcher's state: `mapStyleIndex` and the store it writes through to. */
  datatype StyleState = StyleState(index: int, store: Store)

  predicate Valid(st: StyleState) {
    0 <= st.index < |StyleList|
  }

  /** `useMapStyle()`: start at the cached index, or at the first style when nothing usable was cached. */
  function UseMapStyle(cachedIndex: int, store: Store): (st: StyleState)
    requires -1 <= cachedIndex < |StyleList|
    ensures Valid(st)
    ensures st.index == if cachedIndex == -1 then 0 else cachedIndex
    ensures st.store == store
  {
    StyleState(if cachedIndex > -1 then cachedIndex else 0, store)
  }

  /** The computed `mapStyle`: always one of the listed styles. */
  function CurrentStyle(st: StyleState): (s: MapStyle)
    requires Valid(st)
    ensures s in StyleList
  {
    StyleList[st.index]
  }

  /**
   * `nextMapStyle()`, followed by the style watcher, which persists the new
   * style whenever it differs from the old one.
   */
  function NextMapStyle(st: StyleState): (r: StyleState)
    requires Valid(st)
    ensures Valid(r)
    ensures r.index == (st.index + 1) % |StyleList|
    ensures CurrentStyle(r) != CurrentStyle(st)
    ensures r.store == UpdateMapStyleCache(st.store, CurrentStyle(r))
  {
    var index := (st.index + 1) % |StyleList|;
    var store := if StyleList[index] != StyleList[st.index]
                 then UpdateMapStyleCache(st.store, StyleList[index])
                 else st.store;
    StyleState(index, store)
  }

  /** Reading back a persisted style yields that style. */
  lemma CacheRoundTrip(store: Store, style: MapStyle)
    ensures var i := CachedMapStyleIndex(UpdateMapStyleCache(store, style));
            0 <= i < |StyleList| && StyleList[i] == style
  {
    var i := CachedMapStyleIndex(UpdateMapStyleCache(store, style));
    assert style == StyleList[0] || style == StyleList[1];
  }

  /** After a switch, a program loaded from the store starts on the style the user switched to. */
  lemma SwitchSurvivesReload(st: StyleState, other: Store)
    requires Valid(st)
    ensures var next := NextMapStyle(st);
            CurrentStyle(UseMapStyle(CachedMapStyleIndex(next.store), other)) == CurrentStyle(next)
  {
    CacheRoundTrip(st.store, CurrentStyle(NextMapStyle(st)));
  }

  /** With nothing usable stored, the switcher starts on the first style. */
  lemma UnknownPreferenceFallsBack(store: Store)
    requires StorageKey !in store || (store[StorageKey] != "OS_MAP" && store[StorageKey] != "MAPBOX")
    ensures CurrentStyle(UseMapStyle(CachedMapStyleIndex(store), store)) == OsMap
  {
  }

  /** `nextMapStyle` applied `n` times. */
  function NextN(st: StyleState, n: nat): (r: StyleState)
    requires Valid(st)
    ensures Valid(r)
    decreases n
  {
    if n == 0 then st else NextN(NextMapStyle(st), n - 1)
  }

  /** Switching `n` times moves the index `n` places round the list. */
  lemma {:induction false} NextNCycles(st: StyleState, n: nat)
    requires Valid(st)
    ensures NextN(st, n).index == (st.index + n) % |StyleList|
    decreases n
  {
    if n > 0 {
      NextNCycles(NextMapStyle(st), n - 1);
      assert (((st.index + 1) % 2) + (n - 1)) % 2 == (st.index + n) % 2;
    }
  }

  /** Switching as many times as there are styles comes back to the starting style. */
  lemma FullCycleReturns(st: StyleState)
    requires Valid(st)
    ensures CurrentStyle(NextN(st, |StyleList|)) == CurrentStyle(st)
  {
    NextNCycles(st, |StyleList|);
  }
}
