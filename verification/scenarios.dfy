/**
 * Worked resolutions for concrete request URLs and info dicts. Each request
 * URL is a parameter pinned by a `requires`, with its provider markers
 * established in a lemma of its own.
 */
module Scenarios {
  import opened Wrappers
  import opened Text
  import opened Ytdl
  import opened Providers
  import opened Resolver

  lemma IcecastUrlMarkers(url: string)
    requires url == "http://x/icecast/stream.ogg"
    ensures Contains(url, "icecast") && !Contains(url, "twitch") && !Contains(url, "youtube")
  {
    ContainsAt(url, "icecast", 9);
    AbsentCharRulesOut(url, "twitch", 'w');
    AbsentCharRulesOut(url, "youtube", 'y');
  }

  lemma TwitchUrlMarkers(url: string)
    requires url == "https://twitch.tv/x"
    ensures !Contains(url, "icecast") && Contains(url, "twitch") && !Contains(url, "youtube")
  {
    ContainsAt(url, "twitch", 8);
    AbsentCharRulesOut(url, "icecast", 'e');
    AbsentCharRulesOut(url, "youtube", 'y');
  }

  lemma YouTubeUrlMarkers(url: string)
    requires url == "https://youtube.com/x"
    ensures !Contains(url, "icecast") && !Contains(url, "twitch") && Contains(url, "youtube")
  {
    ContainsAt(url, "youtube", 8);
    AbsentCharRulesOut(url, "icecast", 'i');
    AbsentCharRulesOut(url, "twitch", 'w');
  }

  lemma BothMarkersUrl(url: string)
    requires url == "https://youtube.com/twitch"
    ensures !Contains(url, "icecast") && Contains(url, "twitch") && Contains(url, "youtube")
  {
    ContainsAt(url, "youtube", 8);
    ContainsAt(url, "twitch", 20);
    AbsentCharRulesOut(url, "icecast", 'a');
  }

  /** Icecast relay: the first of two formats is streamed. */
  lemma IcecastPicksFirstOfTwo(url: string, item: Item)
    requires url == "http://x/icecast/stream.ogg"
    requires item == Item(Missing, Value([Format(Missing, Missing, Value("u1")), Format(Missing, Missing, Value("u2"))]))
    ensures Resolve(url, Extracted(Single(item))) == Success(Stream(None, "u1"))
  {
    IcecastUrlMarkers(url);
    IcecastTakesFirstFormat(url, item);
  }

  /** Twitch channel: the `audio_only` format is chosen over the one before it. */
  lemma TwitchSkipsToAudioOnly(url: string, item: Item)
    requires url == "https://twitch.tv/x"
    requires item == Item(Value("live"), Value([Format(Value("360p"), Missing, Value("v")), Format(Value("audio_only"), Missing, Value("u3"))]))
    ensures Resolve(url, Extracted(Single(item))) == Success(Stream(Some("live"), "u3"))
  {
    TwitchUrlMarkers(url);
    assert FirstWith(item.formats.value, 1, FormatId, "audio_only");
    TwitchTakesFirstAudioOnly(url, item, item.formats.value);
  }

  /** YouTube video whose `Default` format has no `url`: a failure, not a crash. */
  lemma YouTubeDefaultWithoutUrl(url: string, item: Item)
    requires url == "https://youtube.com/x"
    requires item == Item(Missing, Value([Format(Missing, Value("Default"), Missing)]))
    ensures Resolve(url, Extracted(Single(item))) == Failure(NotDetermined)
  {
    YouTubeUrlMarkers(url);
    assert FirstWith(item.formats.value, 0, FormatNote, "Default");
    YouTubeTakesFirstDefault(url, item, item.formats.value, 0);
  }

  /** A playlist with no entries fails on its first entry, for any URL. */
  lemma EmptyPlaylistFails(url: string)
    ensures Resolve(url, Extracted(Playlist(Value([])))) == Failure(IndexError)
  {
  }

  /**
   * A URL naming both Twitch and YouTube: the YouTube rule runs last and
   * replaces the Twitch choice with the absent `url` of its `Default` format.
   */
  lemma YouTubeOverwritesTwitchWithNothing(url: string, item: Item)
    requires url == "https://youtube.com/twitch"
    requires item == Item(Missing, Value([Format(Value("audio_only"), Missing, Value("a")), Format(Missing, Value("Default"), Null)]))
    ensures Resolve(url, Extracted(Single(item))) == Failure(NotDetermined)
  {
    BothMarkersUrl(url);
    assert FirstWith(item.formats.value, 1, FormatNote, "Default");
    YouTubeTakesFirstDefault(url, item, item.formats.value, 1);
  }
}
