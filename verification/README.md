# Stream resolution of the Radio PSI Discord music bot

The bot plays a fixed set of radio and video URLs into a Discord voice channel.
Before it can play anything it must turn a request URL into one playable stream
URL. It asks the extraction library (yt_dlp) for the URL's info dict, and then
`YtdlSource.get_stream_from_url` picks a stream out of that dict:

1. a playlist is replaced by its first entry;
2. three provider blocks run in order, each keyed on a substring of the request
   URL: `"icecast"` takes the `url` of the first format; `"twitch"` takes the
   `url` of the first format whose `format_id` is `"audio_only"`; `"youtube"`
   takes the `url` of the first format whose `format_note` is `"Default"`;
3. no selected URL raises `FileNotFoundError`; otherwise the stream carries the
   item's `title` (or `None`).

Every exception is caught, logged with its type, and turned into `None`.
`play_audio_url` then shows the stream's title as the bot's activity, or the
request URL when the title is empty or absent.

The model is functional. Modules:

- `Wrappers`: `Option` and `Result`.
- `Text`: Python's `needle in haystack` on strings, as an executable search
  proved equal to "occurs at some position".
- `Ytdl`: the info dict. Every key is a `Field`: `Missing`, `Null` (present
  with value `None`) or `Value(v)`. This keeps `d[key]` (raises `KeyError` on a
  missing key) apart from `d.get(key)` (gives `None` for both). The failure
  kinds are the exception types the handler logs: `ExtractionError`,
  `KeyError(key)`, `IndexError`, `TypeError(key)`, and `NotDetermined` for the
  `FileNotFoundError`.
- `Providers`: the three blocks as an ordered table of (marker, rule) pairs.
  `RunTable` runs every entry whose marker is in the URL and threads the
  selection through them. Two lemmas describe the whole fold: the first
  raising block aborts, and otherwise the last block that selects something
  wins.
- `Resolver`: `Resolve`, the table-driven policy. `GetStreamFromUrl` is a
  method written the way the code reads: three `if` blocks and a `for ... break`
  loop. It is proved equal to `Resolve`. The lemmas give each provider's rule
  in terms of the formats list.
- `Presence`: the activity name shown while playing.
- `Scenarios`: concrete request URLs and info dicts worked through the model.

The extraction call is an input: `Extraction` is either `ExtractionFailed` or
the returned metadata. The FFmpeg audio source built on the selected URL is
represented by that URL.

Three facts about the code shape the model:

- The three `if` blocks are not `elif`s. Every matching block runs, and a
  later block that finds a format overwrites the selection, even with `None`
  when that format has no `url` (`LastMatchingRuleWins`,
  `YouTubeTakesFirstDefault`, `Scenarios.YouTubeOverwritesTwitchWithNothing`).
- `formats[0]` and `entries[0]` raise `IndexError` on an empty list, so an
  Icecast URL with no formats and an empty playlist fail with `IndexError`,
  not `NotDetermined` (`IcecastTakesFirstFormat`, `PlaylistUsesFirstEntry`).
- The subscripts can also raise `KeyError` and `TypeError`. All of these
  reach the same `except Exception` handler.

## Model

| member | source | states |
|---|---|---|
| Text.ContainsIffOccurs | psi_musicbot.py:77 | the substring test on the URL holds exactly when the marker occurs at some position of it |
| Providers.FirstMatch | psi_musicbot.py:82-85 | the scan stops at a matching format with no match before it, and finds nothing only when no format matches |
| Providers.Pick | psi_musicbot.py:77-92 | Icecast succeeds only on a non-empty formats list whose first entry has a `url` key, and then assigns that `url`; a scanning rule fails only when `formats` is not a list, assigns the `url` of the first matching format, and assigns nothing when no format matches; every failure is a lookup error |
| Providers.Apply | psi_musicbot.py:77-92 | a block whose marker is absent from the URL leaves the selection unchanged; otherwise a raising rule's exception passes through, a rule that picked a value assigns it (`None` included), and a rule that picked nothing leaves the selection unchanged |
| Providers.RunTable | psi_musicbot.py:76-92 | running the provider blocks only ever fails with a lookup error |
| Providers.FirstRaiseAborts | psi_musicbot.py:76-92 | the blocks fail exactly when some block whose marker is in the URL raises, and then with the exception of the first such block |
| Providers.LastFiringWins | psi_musicbot.py:76-92 | when no block raises, the selection is the value assigned by the last block that selected a format, or the incoming selection when none did |
| Ytdl.Subscript | psi_musicbot.py:78 | `d[key]` raises `KeyError(key)` exactly when the key is absent, and otherwise yields the value, `None` for a `None` value |
| Ytdl.ListAt | psi_musicbot.py:82 | `d[key]` used as a list succeeds exactly when the key holds a list and yields that list; an absent key or a `None` value raise a lookup error |
| Ytdl.Head | psi_musicbot.py:74 | `xs[0]` succeeds exactly on a non-empty list, yielding its first element, and otherwise raises `IndexError` |
| Resolver.Reduce | psi_musicbot.py:72-74 | a single item is kept; a playlist yields its first entry and fails exactly when `entries` is absent, `None` or empty |
| Resolver.Finish | psi_musicbot.py:94-98 | no selected URL fails as not determined; otherwise the stream carries the selected URL and the item's title, or `None` |
| Resolver.Resolve | psi_musicbot.py:69-105 | extraction failure, and only it, gives `ExtractionError`; a failing playlist reduction gives its own failure; on success the title is the reduced item's `title` |
| Resolver.TableInOrder | psi_musicbot.py:76-92 | the table runs the Icecast, Twitch and YouTube blocks in that order, each on the previous one's selection |
| Resolver.ScanFormats | psi_musicbot.py:82-85 | the `for ... break` loop yields the `url` of the first matching format, and leaves the selection unchanged when no format matches |
| Resolver.GetStreamFromUrl | psi_musicbot.py:67-105 | the code-shaped resolver, with its independent `if` blocks and scanning loops, gives the same result as the table-driven `Resolve` on every input |
| Resolver.PlaylistUsesFirstEntry | psi_musicbot.py:72-74 | a playlist resolves exactly as its first entry; missing, `None` or empty `entries` fail with `KeyError`, `TypeError` or `IndexError`, and later entries are never tried |
| Resolver.UnknownProviderNotDetermined | psi_musicbot.py:70-95 | a URL with none of the three markers fails as not determined, whatever the formats, once the playlist is reduced |
| Resolver.IcecastTakesFirstFormat | psi_musicbot.py:76-78 | for an Icecast-only URL the stream URL is the first format's `url`, whatever its other fields; a missing or `None` list, an empty list or a missing `url` key raise; a `None` url is not determined |
| Resolver.TwitchTakesFirstAudioOnly | psi_musicbot.py:80-85 | with Twitch named and YouTube not, the first `audio_only` format decides the result, even over an Icecast choice; with none, the result is what the Icecast rule left, or not determined |
| Resolver.YouTubeTakesFirstDefault | psi_musicbot.py:87-92 | with YouTube named, the first `Default` format decides the result, overriding whatever the Icecast or Twitch rule chose, also when its `url` is absent |
| Resolver.YouTubeWithoutDefaultKeepsEarlier | psi_musicbot.py:80-95 | with YouTube named but no `Default` format, the first `audio_only` format decides when Twitch is named, else the first format when Icecast is named, else nothing is determined |
| Resolver.LastMatchingRuleWins | psi_musicbot.py:76-95 | when no rule raises, the stream comes from the last provider in order that selected a format; when none did, the resolution is not determined |
| Resolver.StreamUrlComesFromAFormat | psi_musicbot.py:94-98 | a success needs a URL that names a provider, and its stream URL is the present `url` of some format of the resolved item |
| Presence.DisplayName | psi_musicbot.py:121 | the activity name is the title when it is a non-empty string, else the request URL, so it is empty only for an empty URL |
| Presence.NowPlaying | psi_musicbot.py:118-121 | an activity is shown exactly when resolution succeeds; it is the item's title when that is a non-empty string, and the request URL otherwise |
| Scenarios.IcecastPicksFirstOfTwo | psi_musicbot.py:77-78 | an Icecast URL with formats `u1`, `u2` streams `u1` |
| Scenarios.TwitchSkipsToAudioOnly | psi_musicbot.py:81-85 | a Twitch URL streams the `audio_only` format's `url`, not the format before it |
| Scenarios.YouTubeDefaultWithoutUrl | psi_musicbot.py:88-95 | a YouTube `Default` format without `url` fails as not determined |
| Scenarios.YouTubeOverwritesTwitchWithNothing | psi_musicbot.py:81-95 | a URL naming both Twitch and YouTube loses the Twitch choice to a `Default` format whose `url` is `None` |
| Scenarios.EmptyPlaylistFails | psi_musicbot.py:73-74 | a playlist with no entries fails with `IndexError` for any URL |

## Left out

- The extraction call `YTDL.extract_info` (line 71) is a network library call. Its result is an input. Its own exception, and the `TypeError` at line 73 when it returns `None`, are both the one `ExtractionError`.
- Info dict values of unexpected Python types are not represented. Examples are a non-string `format_id` or a format that is not a dict. Keys hold strings, lists or `None`.
- A playlist entry that is itself a playlist is read as a single item, as the code does. Its `formats` are looked up directly.
- The FFmpeg source, its reconnect options and the 0.4 volume (lines 40-43, 62-64, 99) are subprocess and codec plumbing. The stream is represented by its URL.
- Resolve: `Success` means only that a stream URL was selected. Building the FFmpeg source at line 99 runs inside the same `try`, so a failure there (for example, no ffmpeg on PATH) also makes the code return `None`. The model does not represent that failure. NowPlaying's "shown exactly when resolution succeeds" holds under the same assumption.
- Logging of the resolved URL and of the failure type (lines 96, 104) is output only. The failure kind carries the logged type.
- The playback polling loop, presence changes and voice disconnect (lines 127-133) are asynchronous I/O and timing.
- Voice connection setup (lines 199-205), command registration (lines 175-193) and `on_ready` are framework wiring over the Discord gateway.
- Config file creation and loading, `sys.exit` (lines 139-147), libopus loading (lines 150-159) and logging setup are file and OS I/O.
- Presence.DisplayName: Python truthiness is modelled only for a string or `None` title.
