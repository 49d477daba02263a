/** How the optional `format` query parameter is read: the case-insensitive
    `mp3` alias, a raw format selector, or nothing at all. */
module Format {
  import opened Common
  import Text

  /** `format.toLowerCase() === "mp3"`. */
  predicate IsMp3Alias(format: string)
  {
    Text.ToLower(format) == "mp3"
  }

  /** The mp3 alias is exactly the four case spellings of `mp3`. */
  lemma Mp3AliasSpellings(format: string)
    ensures IsMp3Alias(format) <==> format in {"mp3", "mP3", "Mp3", "MP3"}
  {
    if IsMp3Alias(format) {
      var lower := Text.ToLower(format);
      assert |format| == 3;
      assert lower[0] == 'm' && lower[1] == 'p' && lower[2] == '3';
      Text.LowerCharInverse(format[0], 'm');
      Text.LowerCharInverse(format[1], 'p');
      Text.LowerCharInverse(format[2], '3');
      assert format == [format[0], format[1], format[2]];
    }
  }

  /** What the requested format asks the download tool for. */
  datatype Choice =
    | Default                       // no format, or the empty string
    | Audio                         // the mp3 alias: extract the audio track
    | Selector(selector: string)    // anything else, passed through verbatim

  /** Reads the `format` parameter the way the handler's `if (format)` and
      `toLowerCase() === "mp3"` tests do. */
  function Classify(format: Option<string>): (c: Choice)
    ensures c == Default <==> !Truthy(format)
    ensures c == Audio <==> Truthy(format) && IsMp3Alias(format.value)
    ensures c.Selector? ==> format == Some(c.selector)
    ensures c.Selector? ==> c.selector != "" && !IsMp3Alias(c.selector)
  {
    if !Truthy(format) then Default
    else if IsMp3Alias(format.value) then Audio
    else Selector(format.value)
  }
}
