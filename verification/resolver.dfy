/**
 * `YtdlSource.get_stream_from_url`: turn a request URL and the extracted info
 * dict into a stream (its title and the selected stream URL) or a failure.
 */
module Resolver {
  import opened Wrappers
  import opened Text
  import opened Ytdl
  import opened Providers

  /**
   * A resolved stream. `url` stands for the FFmpeg audio source opened on the
   * selected stream URL.
   */
  datatype Stream = Stream(title: Option<string>, url: string)

  /** A playlist is replaced by its first entry; anything else is read as one item. */
  function Reduce(md: Metadata): (r: Result<Item, Failure>)
    ensures md.Single? ==> r == Success(md.item)
    ensures md.Playlist? ==> (r.Success? <==> md.entries.Value? && |md.entries.value| > 0)
    ensures md.Playlist? && r.Success? ==> r.value == md.entries.value[0]
    ensures r.Failure? ==> IsLookupError(r.error)
  {
    match md
    case Single(item) => Success(item)
    case Playlist(entries) =>
      var es :- ListAt(entries, "entries");
      Head(es)
  }

  /** The end of the `try` block: no selection is a failure, otherwise build the stream. */
  function Finish(item: Item, sel: Option<string>): (r: Result<Stream, Failure>)
    ensures r.Success? <==> sel.Some?
    ensures r.Failure? ==> r.error == NotDetermined
    ensures r.Success? ==> r.value.url == sel.value && r.value.title == Get(item.title)
  {
    if sel.None? then Failure(NotDetermined)
    else Success(Stream(Get(item.title), sel.value))
  }

  /** The resolution policy: reduce the metadata, run the provider table, finish. */
  function Resolve(url: string, ext: Extraction): (r: Result<Stream, Failure>)
    ensures ext.ExtractionFailed? <==> r == Failure(ExtractionError)
    ensures r.Success? ==> ext.Extracted? && Reduce(ext.md).Success?
    ensures r.Success? ==> r.value.title == Get(Reduce(ext.md).value.title)
    ensures ext.Extracted? && Reduce(ext.md).Failure? ==> r == Failure(Reduce(ext.md).error)
  {
    match ext
    case ExtractionFailed => Failure(ExtractionError)
    case Extracted(md) =>
      var item :- Reduce(md);
      var sel :- RunTable(url, item, Table, None);
      Finish(item, sel)
  }

  /** The provider table is the three `if` blocks in sequence. */
  lemma TableInOrder(url: string, item: Item, sel: Option<string>)
    ensures RunTable(url, item, Table, sel) ==
      (var s1 :- Apply(Icecast, url, item, sel);
       var s2 :- Apply(Twitch, url, item, s1);
       Apply(YouTube, url, item, s2))
  {
    assert Table[1..] == [Twitch, YouTube];
    assert Table[1..][1..] == [YouTube];
    var a := Apply(Icecast, url, item, sel);
    if a.Success? {
      assert RunTable(url, item, Table, sel) == RunTable(url, item, [Twitch, YouTube], a.value);
      var b := Apply(Twitch, url, item, a.value);
      if b.Success? {
        assert RunTable(url, item, [Twitch, YouTube], a.value) == RunTable(url, item, [YouTube], b.value);
        var c := Apply(YouTube, url, item, b.value);
        if c.Success? {
          assert RunTable(url, item, [YouTube], b.value) == RunTable(url, item, [], c.value);
        }
      }
    }
  }

  /**
   * `for fmt in fs: if fmt.get(key) == wanted: sel = fmt.get("url"); break`:
   * the first matching format's URL replaces `sel`; with no match `sel` stays.
   */
  method ScanFormats(fs: seq<Format>, key: FormatKey, wanted: string, sel: Option<string>) returns (s: Option<string>)
    ensures NoneWith(fs, key, wanted) ==> s == sel
    ensures forall i :: FirstWith(fs, i, key, wanted) ==> s == Get(fs[i].url)
  {
    s := sel;
    var i := 0;
    while i < |fs|
      invariant 0 <= i <= |fs|
      invariant s == sel
      invariant forall j :: 0 <= j < i ==> !Matches(fs[j], key, wanted)
    {
      if KeyOf(fs[i], key) == Some(wanted) {
        s := Get(fs[i].url);
        return;
      }
      i := i + 1;
    }
  }

  /**
   * The resolver written the way the code reads: three independent `if`
   * blocks, the last two scanning the formats in order.
   */
  method GetStreamFromUrl(url: string, ext: Extraction) returns (r: Result<Stream, Failure>)
    ensures r == Resolve(url, ext)
  {
    if ext.ExtractionFailed? {
      return Failure(ExtractionError);
    }
    var data :- Reduce(ext.md);
    TableInOrder(url, data, None);

    var streamUrl: Option<string> := None;
    if Contains(url, "icecast") {
      var fs :- ListAt(data.formats, "formats");
      var first :- Head(fs);
      streamUrl :- Subscript(first.url, "url");
    }
    assert Apply(Icecast, url, data, None) == Success(streamUrl);
    ghost var afterIcecast := streamUrl;

    if Contains(url, "twitch") {
      var fs :- ListAt(data.formats, "formats");
      streamUrl := ScanFormats(fs, FormatId, "audio_only", streamUrl);
    }
    assert Apply(Twitch, url, data, afterIcecast) == Success(streamUrl);
    ghost var afterTwitch := streamUrl;

    if Contains(url, "youtube") {
      var fs :- ListAt(data.formats, "formats");
      streamUrl := ScanFormats(fs, FormatNote, "Default", streamUrl);
    }
    assert Apply(YouTube, url, data, afterTwitch) == Success(streamUrl);

    if streamUrl.None? {
      return Failure(NotDetermined);
    }
    return Success(Stream(Get(data.title), streamUrl.value));
  }

  /** A playlist is resolved as its first entry; no later entry is ever tried. */
  lemma PlaylistUsesFirstEntry(url: string, entries: Field<seq<Item>>)
    ensures entries.Missing? ==> Resolve(url, Extracted(Playlist(entries))) == Failure(KeyError("entries"))
    ensures entries.Null? ==> Resolve(url, Extracted(Playlist(entries))) == Failure(TypeError("entries"))
    ensures entries == Value([]) ==> Resolve(url, Extracted(Playlist(entries))) == Failure(IndexError)
    ensures entries.Value? && |entries.value| > 0 ==>
      Resolve(url, Extracted(Playlist(entries))) == Resolve(url, Extracted(Single(entries.value[0])))
  {
  }

  /** A URL naming no known provider never yields a stream, whatever the formats. */
  lemma UnknownProviderNotDetermined(url: string, md: Metadata)
    requires !Contains(url, "icecast") && !Contains(url, "twitch") && !Contains(url, "youtube")
    ensures Reduce(md).Success? ==> Resolve(url, Extracted(md)) == Failure(NotDetermined)
    ensures Reduce(md).Failure? ==> Resolve(url, Extracted(md)) == Failure(Reduce(md).error)
  {
    if Reduce(md).Success? {
      TableInOrder(url, Reduce(md).value, None);
    }
  }

  /**
   * Icecast alone: the stream URL is the `url` of the first format, whatever its
   * other fields; a missing list, an empty list or a missing `url` key raise.
   */
  lemma IcecastTakesFirstFormat(url: string, item: Item)
    requires Contains(url, "icecast") && !Contains(url, "twitch") && !Contains(url, "youtube")
    ensures item.formats.Missing? ==> Resolve(url, Extracted(Single(item))) == Failure(KeyError("formats"))
    ensures item.formats.Null? ==> Resolve(url, Extracted(Single(item))) == Failure(TypeError("formats"))
    ensures item.formats == Value([]) ==> Resolve(url, Extracted(Single(item))) == Failure(IndexError)
    ensures item.formats.Value? && |item.formats.value| > 0 ==>
      var first := item.formats.value[0];
      && (first.url.Missing? ==> Resolve(url, Extracted(Single(item))) == Failure(KeyError("url")))
      && (first.url.Null? ==> Resolve(url, Extracted(Single(item))) == Failure(NotDetermined))
      && (first.url.Value? ==> Resolve(url, Extracted(Single(item))) == Success(Stream(Get(item.title), first.url.value)))
  {
    TableInOrder(url, item, None);
  }

  /**
   * Twitch (YouTube not named): the first `audio_only` format's `url` is taken,
   * later ones are ignored; with none, the selection stays what the Icecast rule
   * left, and no other format is used.
   */
  lemma TwitchTakesFirstAudioOnly(url: string, item: Item, fs: seq<Format>)
    requires Contains(url, "twitch") && !Contains(url, "youtube")
    requires item.formats == Value(fs)
    requires Contains(url, "icecast") ==> |fs| > 0 && !fs[0].url.Missing?
    ensures forall i :: FirstWith(fs, i, FormatId, "audio_only") ==>
      Resolve(url, Extracted(Single(item))) == Finish(item, Get(fs[i].url))
    ensures NoneWith(fs, FormatId, "audio_only") ==>
      Resolve(url, Extracted(Single(item))) == Finish(item, if Contains(url, "icecast") then Get(fs[0].url) else None)
  {
    TableInOrder(url, item, None);
    forall i | FirstWith(fs, i, FormatId, "audio_only")
      ensures FirstMatch(fs, FormatId, "audio_only") == Some(i)
    {
      FirstMatchIsFirstWith(fs, FormatId, "audio_only", i);
    }
  }

  /**
   * YouTube: the first `Default` format's `url` is taken and overrides anything
   * the Icecast or Twitch rule chose, even when that `url` is absent.
   */
  lemma YouTubeTakesFirstDefault(url: string, item: Item, fs: seq<Format>, i: nat)
    requires Contains(url, "youtube")
    requires item.formats == Value(fs)
    requires Contains(url, "icecast") ==> |fs| > 0 && !fs[0].url.Missing?
    requires FirstWith(fs, i, FormatNote, "Default")
    ensures Resolve(url, Extracted(Single(item))) == Finish(item, Get(fs[i].url))
  {
    TableInOrder(url, item, None);
    FirstMatchIsFirstWith(fs, FormatNote, "Default", i);
  }

  /**
   * YouTube without a `Default` format: the rule selects nothing, so the
   * Twitch choice stands, else the Icecast one, else nothing is determined.
   */
  lemma YouTubeWithoutDefaultKeepsEarlier(url: string, item: Item, fs: seq<Format>)
    requires Contains(url, "youtube")
    requires item.formats == Value(fs)
    requires Contains(url, "icecast") ==> |fs| > 0 && !fs[0].url.Missing?
    requires NoneWith(fs, FormatNote, "Default")
    ensures forall i :: Contains(url, "twitch") && FirstWith(fs, i, FormatId, "audio_only") ==>
      Resolve(url, Extracted(Single(item))) == Finish(item, Get(fs[i].url))
    ensures !(Contains(url, "twitch") && !NoneWith(fs, FormatId, "audio_only")) ==>
      Resolve(url, Extracted(Single(item))) == Finish(item, if Contains(url, "icecast") then Get(fs[0].url) else None)
  {
    TableInOrder(url, item, None);
    FirstMatchIsFirstWith(fs, FormatNote, "Default", 0);
    forall i | FirstWith(fs, i, FormatId, "audio_only")
      ensures FirstMatch(fs, FormatId, "audio_only") == Some(i)
    {
      FirstMatchIsFirstWith(fs, FormatId, "audio_only", i);
    }
    FirstMatchIsFirstWith(fs, FormatId, "audio_only", 0);
  }

  /**
   * The three rules all run: when none raises, the stream comes from the last
   * provider in table order that selected a format, and without one the
   * resolution fails as not determined.
   */
  lemma LastMatchingRuleWins(url: string, item: Item)
    requires forall k :: 0 <= k < |Table| ==> !Raises(url, Table[k], item)
    ensures (forall k :: 0 <= k < |Table| ==> !Fires(url, Table[k], item)) ==>
      Resolve(url, Extracted(Single(item))) == Failure(NotDetermined)
    ensures forall k :: 0 <= k < |Table| && Fires(url, Table[k], item) && (forall j :: k < j < |Table| ==> !Fires(url, Table[j], item)) ==>
      Resolve(url, Extracted(Single(item))) == Finish(item, Assigned(Table[k], item))
  {
    LastFiringWins(url, item, Table, None);
  }

  /**
   * A resolution succeeds only with a present URL taken from a format of the
   * resolved item, and only for a URL that names one of the providers.
   */
  lemma StreamUrlComesFromAFormat(url: string, ext: Extraction)
    requires Resolve(url, ext).Success?
    ensures Contains(url, "icecast") || Contains(url, "twitch") || Contains(url, "youtube")
    ensures
      var item := Reduce(ext.md).value;
      && item.formats.Value?
      && exists i :: 0 <= i < |item.formats.value| && item.formats.value[i].url == Value(Resolve(url, ext).value.url)
  {
    var item := Reduce(ext.md).value;
    var u := Resolve(url, ext).value.url;
    FirstRaiseAborts(url, item, Table, None);
    LastFiringWins(url, item, Table, None);
    assert RunTable(url, item, Table, None) == Success(Some(u));
    var k: int;
    if Fires(url, Table[2], item) {
      k := 2;
    } else if Fires(url, Table[1], item) {
      k := 1;
    } else {
      k := 0;
    }
    assert Fires(url, Table[k], item) && Assigned(Table[k], item) == Some(u);
  }
}
