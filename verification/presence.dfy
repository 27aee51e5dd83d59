/**
 * `PsiMusicBot.play_audio_url`: the "listening to" activity the bot shows
 * while a resolved stream plays.
 */
module Presence {
  import opened Wrappers
  import opened Ytdl
  import opened Resolver

  /** Python truthiness of the stream's title: present and not the empty string. */
  predicate Truthy(title: Option<string>)
  {
    title.Some? && title.value != ""
  }

  /** The activity name: the title when it is truthy, else the request URL. */
  function DisplayName(url: string, title: Option<string>): (name: string)
    ensures Truthy(title) ==> name == title.value
    ensures !Truthy(title) ==> name == url
    ensures name == "" ==> url == ""
  {
    if Truthy(title) then title.value else url
  }

  /**
   * The name the bot shows after a play request, or `None` when resolution
   * failed and nothing is played.
   */
  function NowPlaying(url: string, ext: Extraction): (shown: Option<string>)
    ensures shown.Some? <==> Resolve(url, ext).Success?
    ensures shown.Some? ==> shown.value == url || Get(Reduce(ext.md).value.title) == Some(shown.value)
    ensures shown.Some? && !Truthy(Get(Reduce(ext.md).value.title)) ==> shown.value == url
    ensures shown.Some? && Truthy(Get(Reduce(ext.md).value.title)) ==> shown.value == Get(Reduce(ext.md).value.title).value
  {
    match Resolve(url, ext).ToOption()
    case Some(stream) => Some(DisplayName(url, stream.title))
    case None => None
  }
}
