/** The cookie source and the temporary cookie file handed to the tool. */
module Cookies {
  import opened Common
  import Text

  /** The effect of the background cookie fetch on the `YOUTUBE_COOKIES`
      slot. `setCookie` is the response's `set-cookie` header list, `None`
      when the request failed or carried no such header: the `join` then
      throws, the error is caught and logged, and the slot keeps its value. */
  function Collect(setCookie: Option<seq<string>>, current: Option<string>): (next: Option<string>)
    ensures setCookie.None? ==> next == current
    ensures setCookie.Some? ==> next.Some?
  {
    if setCookie.Some? then Some(Text.Join(setCookie.value)) else current
  }

  /** The stored string keeps every cookie: for semicolon-free values the
      list is recovered by splitting at `"; "`. */
  lemma CollectKeepsCookies(cookies: seq<string>, current: Option<string>)
    requires |cookies| > 0
    requires forall k :: 0 <= k < |cookies| ==> Text.NoSemicolon(cookies[k])
    ensures Collect(Some(cookies), current).Some?
    ensures Text.Split(Collect(Some(cookies), current).value) == cookies
  {
    Text.SplitJoin(cookies);
  }

  /** An empty `set-cookie` list overwrites the slot with the empty string,
      which the handler then treats as "no cookies". */
  lemma EmptyHeaderClearsCookies(current: Option<string>)
    ensures Collect(Some([]), current) == Some("")
    ensures !Truthy(Collect(Some([]), current))
  {
  }

  /** A cookie file is written exactly when the slot holds a non-empty
      string (`if (process.env.YOUTUBE_COOKIES)`). */
  predicate WantsJar(source: Option<string>)
  {
    Truthy(source)
  }

  function DigitChar(d: nat): (c: char)
    requires d < 10
    ensures c as int == '0' as int + d
  {
    "0123456789"[d]
  }

  /** Decimal rendering of a non-negative timestamp, as a template literal
      prints it. */
  function Decimal(n: nat): (s: string)
    ensures 0 < |s|
    ensures forall i :: 0 <= i < |s| ==> '0' <= s[i] <= '9'
    ensures n >= 10 <==> |s| >= 2
    decreases n
  {
    if n < 10 then [DigitChar(n)] else Decimal(n / 10) + [DigitChar(n % 10)]
  }

  /** Distinct numbers print differently. */
  lemma {:induction false} DecimalInjective(a: nat, b: nat)
    requires Decimal(a) == Decimal(b)
    ensures a == b
    decreases a
  {
    if a >= 10 && b >= 10 {
      var da, db := Decimal(a), Decimal(b);
      assert da[|da| - 1] == DigitChar(a % 10) && db[|db| - 1] == DigitChar(b % 10);
      assert da[..|da| - 1] == Decimal(a / 10) && db[..|db| - 1] == Decimal(b / 10);
      DecimalInjective(a / 10, b / 10);
    }
  }

  const JarPrefix: string := "cookies_"
  const JarSuffix: string := ".txt"

  /** `path.join(tmpDir, \`cookies_${Date.now()}.txt\`)`; `now` is the
      clock reading in milliseconds. */
  function JarPath(tmpDir: string, now: nat): (path: string)
    ensures |path| >= |tmpDir| + 1 + |JarPrefix| + 1 + |JarSuffix|
    ensures path[..|tmpDir|] == tmpDir && path[|tmpDir|] == '/'
    ensures path[|tmpDir| + 1..|tmpDir| + 1 + |JarPrefix|] == JarPrefix
    ensures path[|path| - |JarSuffix|..] == JarSuffix
    ensures path[|tmpDir| + 1 + |JarPrefix|..|path| - |JarSuffix|] == Decimal(now)
  {
    tmpDir + "/" + JarPrefix + Decimal(now) + JarSuffix
  }

  /** Two requests share a cookie-file path exactly when they read the clock
      in the same millisecond: the name is not unique under concurrency. */
  lemma JarPathCollision(tmpDir: string, now1: nat, now2: nat)
    ensures JarPath(tmpDir, now1) == JarPath(tmpDir, now2) <==> now1 == now2
  {
    if JarPath(tmpDir, now1) == JarPath(tmpDir, now2) {
      var p1, p2 := JarPath(tmpDir, now1), JarPath(tmpDir, now2);
      assert Decimal(now1) == p1[|tmpDir| + 1 + |JarPrefix|..|p1| - |JarSuffix|];
      DecimalInjective(now1, now2);
    }
  }
}
