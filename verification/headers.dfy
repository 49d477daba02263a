/** The response headers written before streaming starts. */
module Headers {
  import opened Common
  import opened Format
  import Arguments

  const AudioType: string := "audio/mpeg"
  const VideoType: string := "video/mp4"

  /** `format?.toLowerCase() === "mp3" ? "audio/mpeg" : "video/mp4"`. */
  function ContentType(format: Option<string>): (t: string)
    ensures t == AudioType || t == VideoType
    ensures t == AudioType <==> format.Some? && IsMp3Alias(format.value)
  {
    if format.Some? && IsMp3Alias(format.value) then AudioType else VideoType
  }

  /** `format || "mp4"`: the raw format as given, not lower-cased. */
  function Extension(format: Option<string>): (ext: string)
    ensures ext != ""
    ensures Truthy(format) ==> ext == format.value
    ensures !Truthy(format) ==> ext == "mp4"
  {
    if Truthy(format) then format.value else "mp4"
  }

  /** The value of the Content-Disposition header. */
  function Disposition(format: Option<string>): string
  {
    "attachment; filename=\"video." + Extension(format) + "\""
  }

  const DispositionHead: string := "attachment; filename=\"video."

  /** The extension is recovered from the header by dropping the fixed head
      and the closing quote, so the filename carries the raw format. */
  lemma DispositionCarriesFormat(format: Option<string>)
    ensures var d := Disposition(format);
            && |d| == |DispositionHead| + |Extension(format)| + 1
            && d[..|DispositionHead|] == DispositionHead
            && d[|DispositionHead|..|d| - 1] == (if Truthy(format) then format.value else "mp4")
            && d[|d| - 1] == '"'
  {
  }

  /** The headers and the argument vector read the format the same way: the
      audio type is announced exactly when the tool is told to extract mp3
      audio, and a raw selector names both the `-f` argument and the file
      extension. */
  lemma HeadersAgreeWithArgs(url: string, format: Option<string>, cookieFile: Option<string>)
    ensures var argv := Arguments.BuildArgs(url, format, cookieFile);
            var k := |Arguments.Prefix| + (if cookieFile.Some? then 2 else 0);
            && (ContentType(format) == AudioType <==> argv[k..|argv| - 3] == Arguments.AudioFlags)
            && (ContentType(format) == VideoType && Truthy(format) ==>
                  argv[k..|argv| - 3] == ["-f", Extension(format)])
            && (!Truthy(format) ==> argv[k..|argv| - 3] == [] && Extension(format) == "mp4")
  {
  }

  /** A character Node's `writeHead` accepts in a header value: tab, printable
      ASCII, and the code points 0x80 to 0xFF. */
  predicate HeaderChar(c: char)
  {
    c == '\t' || (' ' <= c <= '~') || ('\U{80}' <= c <= '\U{FF}')
  }

  /** A header value `writeHead` accepts; any other value makes it throw. */
  predicate HeaderValueValid(v: string)
  {
    forall i :: 0 <= i < |v| ==> HeaderChar(v[i])
  }

  /** The content type never makes `writeHead` throw; the disposition does
      exactly when the raw format carries a character outside the accepted
      range, for example a line break or a character above 0xFF. */
  lemma HeadersValidity(format: Option<string>)
    ensures HeaderValueValid(ContentType(format))
    ensures HeaderValueValid(Disposition(format)) <==> HeaderValueValid(Extension(format))
  {
    var ext := Extension(format);
    var d := Disposition(format);
    assert d == DispositionHead + ext + "\"";
    assert HeaderValueValid(DispositionHead);
    if HeaderValueValid(ext) {
      forall i | 0 <= i < |d|
        ensures HeaderChar(d[i])
      {
        if i < |DispositionHead| {
          assert d[i] == DispositionHead[i];
        } else if i < |DispositionHead| + |ext| {
          assert d[i] == ext[i - |DispositionHead|];
        }
      }
    }
    if HeaderValueValid(d) {
      forall j | 0 <= j < |ext|
        ensures HeaderChar(ext[j])
      {
        assert ext[j] == d[|DispositionHead| + j];
      }
    }
  }
}
