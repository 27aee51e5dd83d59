/**
 * The info dict that the extraction library hands back for a URL, and the
 * Python dict and list accesses the resolver performs on it.
 */
module Ytdl {
  import opened Wrappers

  /** One key of an info dict: absent, present with value `None`, or present with a value. */
  datatype Field<+T> = Missing | Null | Value(value: T)

  /** One entry of an item's `formats` list. */
  datatype Format = Format(formatId: Field<string>, formatNote: Field<string>, url: Field<string>)

  /** A single media item: its `title` and its `formats` list. */
  datatype Item = Item(title: Field<string>, formats: Field<seq<Format>>)

  /**
   * What extraction returned: a playlist (a dict whose `_type` is "playlist",
   * carrying `entries`) or any other dict, which is read as a single item.
   */
  datatype Metadata = Single(item: Item) | Playlist(entries: Field<seq<Item>>)

  /** The outcome of the extraction call, an input to the model. */
  datatype Extraction = ExtractionFailed | Extracted(md: Metadata)

  /**
   * Why a resolution produced no stream. All of these are caught by the one
   * `except Exception` handler; the kinds are the exception types it logs.
   */
  datatype Failure =
    | ExtractionError          // extraction raised, or returned no dict at all
    | KeyError(key: string)    // `d[key]` on a dict without `key`
    | IndexError               // `xs[0]` on an empty list
    | TypeError(key: string)   // the list stored under `key` is `None`
    | NotDetermined            // the FileNotFoundError: no stream URL was selected

  /** The failures raised by subscripting the metadata. */
  predicate IsLookupError(e: Failure)
  {
    e.KeyError? || e.IndexError? || e.TypeError?
  }

  /** `d.get(key)`: an absent key and a `None` value both read as `None`. */
  function Get<T>(f: Field<T>): Option<T>
  {
    match f
    case Value(v) => Some(v)
    case _ => None
  }

  /** `d[key]`: raises KeyError on an absent key, yields `None` for a `None` value. */
  function Subscript<T>(f: Field<T>, key: string): (r: Result<Option<T>, Failure>)
    ensures r.Failure? <==> f.Missing?
    ensures r.Failure? ==> r.error == KeyError(key)
    ensures r.Success? ==> r.value == Get(f)
  {
    match f
    case Missing => Failure(KeyError(key))
    case Null => Success(None)
    case Value(v) => Success(Some(v))
  }

  /** `d[key]` used as a list (indexed or iterated): a `None` value raises TypeError. */
  function ListAt<T>(f: Field<seq<T>>, key: string): (r: Result<seq<T>, Failure>)
    ensures r.Success? <==> f.Value?
    ensures r.Success? ==> r.value == f.value
    ensures r.Failure? ==> IsLookupError(r.error)
  {
    var v :- Subscript(f, key);
    match v
    case None => Failure(TypeError(key))
    case Some(xs) => Success(xs)
  }

  /** `xs[0]`: raises IndexError on an empty list. */
  function Head<T>(xs: seq<T>): (r: Result<T, Failure>)
    ensures r.Success? <==> |xs| > 0
    ensures r.Success? ==> r.value == xs[0]
    ensures r.Failure? ==> r.error == IndexError
  {
    if |xs| == 0 then Failure(IndexError) else Success(xs[0])
  }
}
