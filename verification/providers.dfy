/**
 * The per-provider selection rules, written as an ordered table of
 * (URL marker, rule) pairs. Every entry whose marker occurs in the request URL
 * runs, in table order, and each one that selects a format overwrites the
 * selection made before it: the last firing rule wins.
 */
module Providers {
  import opened Wrappers
  import opened Text
  import opened Ytdl

  /** The format fields a rule can compare. */
  datatype FormatKey = FormatId | FormatNote

  /** How a provider picks a format out of the item's `formats` list. */
  datatype Rule =
    | TakeFirst                                  // `formats[0]["url"]`, unconditionally
    | FirstWhere(key: FormatKey, wanted: string) // the first format with `fmt.get(key) == wanted`

  /** A provider: the substring that selects it and the rule it applies. */
  datatype Provider = Provider(marker: string, rule: Rule)

  const Icecast := Provider("icecast", TakeFirst)
  const Twitch := Provider("twitch", FirstWhere(FormatId, "audio_only"))
  const YouTube := Provider("youtube", FirstWhere(FormatNote, "Default"))

  /** The providers in the order their `if` blocks run. */
  const Table := [Icecast, Twitch, YouTube]

  /** `fmt.get(key)` for a rule's key. */
  function KeyOf(f: Format, key: FormatKey): Option<string>
  {
    match key
    case FormatId => Get(f.formatId)
    case FormatNote => Get(f.formatNote)
  }

  /** `fmt.get(key) == wanted`: an absent key or a `None` value never matches. */
  predicate Matches(f: Format, key: FormatKey, wanted: string)
  {
    KeyOf(f, key) == Some(wanted)
  }

  /** `fs[i]` is the first format whose `key` equals `wanted`. */
  predicate FirstWith(fs: seq<Format>, i: int, key: FormatKey, wanted: string)
  {
    0 <= i < |fs| && Matches(fs[i], key, wanted) && forall j :: 0 <= j < i ==> !Matches(fs[j], key, wanted)
  }

  /** No format's `key` equals `wanted`. */
  predicate NoneWith(fs: seq<Format>, key: FormatKey, wanted: string)
  {
    forall j :: 0 <= j < |fs| ==> !Matches(fs[j], key, wanted)
  }

  /** The index at which a `for fmt in fs: if match: ... break` loop stops, if any. */
  function FirstMatch(fs: seq<Format>, key: FormatKey, wanted: string): (r: Option<nat>)
    ensures r.Some? ==> r.value < |fs| && Matches(fs[r.value], key, wanted)
    ensures r.Some? ==> forall j :: 0 <= j < r.value ==> !Matches(fs[j], key, wanted)
    ensures r.None? <==> forall j :: 0 <= j < |fs| ==> !Matches(fs[j], key, wanted)
  {
    if |fs| == 0 then None
    else if Matches(fs[0], key, wanted) then Some(0)
    else
      match FirstMatch(fs[1..], key, wanted)
      case None => None
      case Some(i) => Some(i + 1)
  }

  /** `FirstMatch` stops exactly at the first matching format. */
  lemma FirstMatchIsFirstWith(fs: seq<Format>, key: FormatKey, wanted: string, i: int)
    ensures FirstMatch(fs, key, wanted) == Some(i) <==> FirstWith(fs, i, key, wanted)
    ensures FirstMatch(fs, key, wanted).None? <==> NoneWith(fs, key, wanted)
  {
  }

  /**
   * What one rule does to the item's formats: fail with the exception its
   * subscripts raise, select nothing (`Success(None)`), or assign the value
   * `v` to the stream URL (`Success(Some(v))`), where `v` itself may be `None`.
   */
  function Pick(rule: Rule, item: Item): (r: Result<Option<Option<string>>, Failure>)
    ensures r.Failure? ==> IsLookupError(r.error)
    ensures r.Success? ==> item.formats.Value?
    ensures rule.TakeFirst? ==>
      (r.Success? <==> item.formats.Value? && |item.formats.value| > 0 && !item.formats.value[0].url.Missing?)
    ensures rule.TakeFirst? && r.Success? ==> r.value == Some(Get(item.formats.value[0].url))
    ensures rule.FirstWhere? ==> (r.Success? <==> item.formats.Value?)
    ensures rule.FirstWhere? && r.Success? && r.value.Some? ==>
      exists i :: 0 <= i < |item.formats.value|
        && Matches(item.formats.value[i], rule.key, rule.wanted)
        && (forall j :: 0 <= j < i ==> !Matches(item.formats.value[j], rule.key, rule.wanted))
        && r.value.value == Get(item.formats.value[i].url)
    ensures rule.FirstWhere? && r.Success? && r.value.None? ==>
      forall j :: 0 <= j < |item.formats.value| ==> !Matches(item.formats.value[j], rule.key, rule.wanted)
  {
    var fs :- ListAt(item.formats, "formats");
    match rule
    case TakeFirst =>
      var first :- Head(fs);
      var u :- Subscript(first.url, "url");
      Success(Some(u))
    case FirstWhere(key, wanted) =>
      match FirstMatch(fs, key, wanted)
      case None => Success(None)
      case Some(i) => Success(Some(Get(fs[i].url)))
  }

  /** The provider's `if marker in url:` block, run on the current selection `sel`. */
  function Apply(p: Provider, url: string, item: Item, sel: Option<string>): (r: Result<Option<string>, Failure>)
    ensures !Contains(url, p.marker) ==> r == Success(sel)
    ensures Contains(url, p.marker) && Pick(p.rule, item).Failure? ==> r == Failure(Pick(p.rule, item).error)
    ensures Contains(url, p.marker) && Pick(p.rule, item) == Success(None) ==> r == Success(sel)
    ensures forall v :: Contains(url, p.marker) && Pick(p.rule, item) == Success(Some(v)) ==> r == Success(v)
  {
    if !Contains(url, p.marker) then Success(sel)
    else
      var picked :- Pick(p.rule, item);
      Success(if picked.Some? then picked.value else sel)
  }

  /** Run the blocks of `ps` in order, threading the selection through them. */
  function RunTable(url: string, item: Item, ps: seq<Provider>, sel: Option<string>): (r: Result<Option<string>, Failure>)
    ensures r.Failure? ==> IsLookupError(r.error)
    decreases |ps|
  {
    if |ps| == 0 then Success(sel)
    else
      var next :- Apply(ps[0], url, item, sel);
      RunTable(url, item, ps[1..], next)
  }

  /** Provider `p` runs and its rule raises. */
  predicate Raises(url: string, p: Provider, item: Item)
  {
    Contains(url, p.marker) && Pick(p.rule, item).Failure?
  }

  /** Provider `p` runs and its rule assigns the stream URL. */
  predicate Fires(url: string, p: Provider, item: Item)
  {
    Contains(url, p.marker) && Pick(p.rule, item).Success? && Pick(p.rule, item).value.Some?
  }

  /** The value a firing provider assigns. */
  function Assigned(p: Provider, item: Item): Option<string>
    requires Pick(p.rule, item).Success? && Pick(p.rule, item).value.Some?
  {
    Pick(p.rule, item).value.value
  }

  /**
   * The table fails exactly when some running provider raises, and then with
   * the exception of the first one that does.
   */
  lemma {:induction false} FirstRaiseAborts(url: string, item: Item, ps: seq<Provider>, sel: Option<string>)
    ensures RunTable(url, item, ps, sel).Failure? <==> exists k :: 0 <= k < |ps| && Raises(url, ps[k], item)
    ensures forall k :: 0 <= k < |ps| && Raises(url, ps[k], item) && (forall j :: 0 <= j < k ==> !Raises(url, ps[j], item)) ==>
      RunTable(url, item, ps, sel) == Failure(Pick(ps[k].rule, item).error)
    decreases |ps|
  {
    if |ps| > 0 {
      if Raises(url, ps[0], item) {
      } else {
        var next := Apply(ps[0], url, item, sel).value;
        FirstRaiseAborts(url, item, ps[1..], next);
        assert forall k :: 1 <= k < |ps| ==> ps[k] == ps[1..][k - 1];
        if exists k :: 0 <= k < |ps| && Raises(url, ps[k], item) {
          var k :| 0 <= k < |ps| && Raises(url, ps[k], item);
          assert Raises(url, ps[1..][k - 1], item);
        }
        forall k | 0 <= k < |ps| && Raises(url, ps[k], item) && (forall j :: 0 <= j < k ==> !Raises(url, ps[j], item))
          ensures RunTable(url, item, ps, sel) == Failure(Pick(ps[k].rule, item).error)
        {
          assert ps[1..][k - 1] == ps[k];
          assert forall j :: 0 <= j < k - 1 ==> ps[1..][j] == ps[j + 1];
        }
      }
    }
  }

  /**
   * When no running provider raises, the selection is the value assigned by the
   * last provider that fires, or the incoming `sel` when none fires.
   */
  lemma {:induction false} LastFiringWins(url: string, item: Item, ps: seq<Provider>, sel: Option<string>)
    requires forall k :: 0 <= k < |ps| ==> !Raises(url, ps[k], item)
    ensures RunTable(url, item, ps, sel).Success?
    ensures (forall k :: 0 <= k < |ps| ==> !Fires(url, ps[k], item)) ==> RunTable(url, item, ps, sel).value == sel
    ensures forall k :: 0 <= k < |ps| && Fires(url, ps[k], item) && (forall j :: k < j < |ps| ==> !Fires(url, ps[j], item)) ==>
      RunTable(url, item, ps, sel).value == Assigned(ps[k], item)
    decreases |ps|
  {
    if |ps| > 0 {
      var next := Apply(ps[0], url, item, sel).value;
      assert forall k :: 1 <= k < |ps| ==> ps[k] == ps[1..][k - 1];
      LastFiringWins(url, item, ps[1..], next);
      assert Fires(url, ps[0], item) ==> next == Assigned(ps[0], item);
      assert !Fires(url, ps[0], item) ==> next == sel;
      forall k | 0 <= k < |ps| && Fires(url, ps[k], item) && (forall j :: k < j < |ps| ==> !Fires(url, ps[j], item))
        ensures RunTable(url, item, ps, sel).value == Assigned(ps[k], item)
      {
        if k > 0 {
          assert ps[1..][k - 1] == ps[k];
          assert forall j :: k - 1 < j < |ps| - 1 ==> ps[1..][j] == ps[j + 1];
        } else {
          assert forall j :: 0 <= j < |ps| - 1 ==> !Fires(url, ps[1..][j], item) by {
            assert forall j :: 0 <= j < |ps| - 1 ==> ps[1..][j] == ps[j + 1];
          }
        }
      }
    }
  }
}
