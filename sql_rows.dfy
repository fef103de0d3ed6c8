/**
 * The conversion between a ref and a table row used by every SQL model:
 * the class's indexed attributes become columns (missing ones are NULL),
 * every other key except "extra" goes into the JSON `extra` column, and a
 * row is read back as its extra mapping overlaid with its columns.
 */
module SqlRows {
  import opened Values

  /** The value of one column taken from a ref (NULL, i.e. None, when absent). */
  function Column(ref: Record, attr: string): Value
  {
    if attr in ref then ref[attr] else VNone
  }

  /** An `extra` column never holds a key "extra": from_dict drops it. */
  type ExtraBag = r: Record | "extra" !in r witness map[]

  /** The keys of a ref that are stored in the `extra` column. */
  function ExtraOf(ref: Record, attributes: set<string>): (extra: ExtraBag)
    ensures forall k :: k in extra <==> k in ref && k !in attributes && k != "extra"
    ensures forall k :: k in extra ==> extra[k] == ref[k]
  {
    map k | k in ref && k !in attributes && k != "extra" :: ref[k]
  }

  /** A row read back as a dictionary: extra overlaid with the columns. */
  function ToDict(columns: Record, extra: Record): (d: Record)
    ensures d.Keys == columns.Keys + extra.Keys
    ensures forall k :: k in columns ==> k in d && d[k] == columns[k]
    ensures forall k :: k in extra && k !in columns ==> d[k] == extra[k]
  {
    extra + columns
  }

  /** Storing a ref and reading it back gives the ref back when it holds every column and no "extra" key. */
  lemma RowRoundTrip(ref: Record, attributes: set<string>)
    requires attributes <= ref.Keys && "extra" !in ref
    ensures ToDict(map a | a in attributes :: Column(ref, a), ExtraOf(ref, attributes)) == ref
  {
    var d := ToDict(map a | a in attributes :: Column(ref, a), ExtraOf(ref, attributes));
    assert d.Keys == ref.Keys;
  }
}
