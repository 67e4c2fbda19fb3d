/**
 * The two-level cache kept by `Config` and by `ConfigProvider`: a dict from
 * section name to a dict from key name to value, with the add and get
 * operations both classes define.
 */
module NestedCache {
  import opened Common

  type Cache<V> = map<string, map<string, V>>

  /** The cached entry for (section, key); absent when the section or the key within it is. */
  function Get<V>(c: Cache<V>, section: string, key: string): Option<V> {
    if section in c && key in c[section] then Some(c[section][key]) else None
  }

  /**
   * `add_to_cache`: creates the section's dict when missing, then sets the
   * key. Afterwards (section, key) holds `v` and every other entry is as before.
   */
  function Put<V>(c: Cache<V>, section: string, key: string, v: V): (r: Cache<V>)
    ensures Get(r, section, key) == Some(v)
    ensures forall s, k :: s != section || k != key ==> Get(r, s, k) == Get(c, s, k)
    ensures r.Keys == c.Keys + {section}
  {
    var inner := if section in c then c[section] else map[];
    c[section := inner[key := v]]
  }
}
