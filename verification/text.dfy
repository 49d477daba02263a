/** String helpers the handler uses: lower-casing of the requested format and
    the `"; "` join that turns `set-cookie` header values into one string. */
module Text {

  /** Lower-cases one character, as `String.prototype.toLowerCase` does on
      ASCII letters. */
  function LowerChar(c: char): char
  {
    if 'A' <= c <= 'Z' then (c as int + 32) as char else c
  }

  /** Character-wise lower-casing of an ASCII string. */
  function ToLower(s: string): (r: string)
    ensures |r| == |s|
    ensures forall i :: 0 <= i < |s| ==> r[i] == LowerChar(s[i])
  {
    seq(|s|, i requires 0 <= i < |s| => LowerChar(s[i]))
  }

  /** The characters whose lower-case form is `lower`: the character itself
      and, for an ASCII lower-case letter, its upper-case partner. */
  lemma LowerCharInverse(c: char, lower: char)
    requires 'a' <= lower <= 'z' || '0' <= lower <= '9'
    ensures LowerChar(c) == lower <==>
              (c == lower || ('a' <= lower <= 'z' && c as int == lower as int - 32))
  {
  }

  /** The separator `Array.prototype.join` is given for cookies. */
  const Separator: string := "; "

  /** Sum of the lengths of `parts`. */
  function TotalLength(parts: seq<string>): nat
  {
    if |parts| == 0 then 0 else |parts[0]| + TotalLength(parts[1..])
  }

  /** `parts.join("; ")`: the parts in order with one separator between
      neighbours, and the empty string for no parts. */
  function Join(parts: seq<string>): (r: string)
    ensures |parts| == 0 ==> r == ""
    ensures |parts| > 0 ==> |r| == TotalLength(parts) + |Separator| * (|parts| - 1)
    ensures |parts| > 0 ==> r[..|parts[0]|] == parts[0]
    decreases |parts|
  {
    if |parts| == 0 then ""
    else if |parts| == 1 then parts[0]
    else parts[0] + Separator + Join(parts[1..])
  }

  /** Cuts `s` at every occurrence of the separator; the inverse of `Join`
      for parts that contain no `;`. Always yields at least one piece. */
  function Split(s: string): (r: seq<string>)
    ensures |r| > 0
    ensures |r| - 1 <= |s| / 2
    decreases |s|
  {
    if |s| == 0 then [""]
    else if |s| >= 2 && s[..2] == Separator then [""] + Split(s[2..])
    else
      var rest := Split(s[1..]);
      [[s[0]] + rest[0]] + rest[1..]
  }

  /** `s` contains no semicolon, so no separator can start inside it. */
  predicate NoSemicolon(s: string)
  {
    forall i :: 0 <= i < |s| ==> s[i] != ';'
  }

  /** A semicolon-free prefix is glued onto the first piece of what follows. */
  lemma {:induction false} SplitFreePrefix(c: string, t: string)
    requires NoSemicolon(c)
    ensures Split(c + t) == [c + Split(t)[0]] + Split(t)[1..]
    decreases |c|
  {
    if |c| == 0 {
      assert c + t == t;
      assert c + Split(t)[0] == Split(t)[0];
      assert Split(t) == [Split(t)[0]] + Split(t)[1..];
    } else {
      var s := c + t;
      assert s[0] == c[0] && c[0] != ';';
      assert !(|s| >= 2 && s[..2] == Separator);
      var c' := c[1..];
      assert s[1..] == c' + t;
      assert NoSemicolon(c') by {
        forall i | 0 <= i < |c'|
          ensures c'[i] != ';'
        {
          assert c'[i] == c[i + 1];
        }
      }
      SplitFreePrefix(c', t);
      assert [c[0]] + c' == c;
      assert [c[0]] + (c' + Split(t)[0]) == c + Split(t)[0];
    }
  }

  /** Joining semicolon-free cookies loses nothing: splitting the joined string
      gives back exactly the cookies, in order. */
  lemma {:induction false} SplitJoin(parts: seq<string>)
    requires |parts| > 0
    requires forall k :: 0 <= k < |parts| ==> NoSemicolon(parts[k])
    ensures Split(Join(parts)) == parts
    decreases |parts|
  {
    if |parts| == 1 {
      SplitFreePrefix(parts[0], "");
      assert parts[0] + "" == parts[0];
    } else {
      var rest := Join(parts[1..]);
      SplitJoin(parts[1..]);
      var s := Separator + rest;
      assert s[..2] == Separator;
      assert s[2..] == rest;
      assert Split(s) == [""] + parts[1..];
      assert Join(parts) == parts[0] + s;
      SplitFreePrefix(parts[0], s);
      assert parts[0] + "" == parts[0];
      assert parts == [parts[0]] + parts[1..];
    }
  }

  /** Without the semicolon-free condition the join is lossy: a cookie with
      an attribute, as a real `set-cookie` value carries, joins to the same
      string as two separate cookies. */
  lemma JoinLosesAttributes()
    ensures Join(["YSC=x; Path=/"]) == Join(["YSC=x", "Path=/"])
    ensures Split(Join(["YSC=x; Path=/"])) != ["YSC=x; Path=/"]
  {
    SplitJoin(["YSC=x", "Path=/"]);
  }
}
