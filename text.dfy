/** The three Python string operations the scraper applies to extracted texts:
    `str.split()` (no argument), `str.split('\n')` and `str.lower()`. */
module Text {

  /** Python's `str.isspace()` for one character: the characters `str.split()` splits on. */
  predicate IsSpace(c: char) {
    var n := c as int;
    (9 <= n <= 13) || (28 <= n <= 32) || n == 0x85 || n == 0xA0 || n == 0x1680
    || (0x2000 <= n <= 0x200A) || n == 0x2028 || n == 0x2029 || n == 0x202F
    || n == 0x205F || n == 0x3000
  }

  predicate NoSpace(s: string) {
    forall i :: 0 <= i < |s| ==> !IsSpace(s[i])
  }

  predicate AllSpace(s: string) {
    forall i :: 0 <= i < |s| ==> IsSpace(s[i])
  }

  // ---------------------------------------------------------------------------
  // str.split()

  /** The longest prefix of `s` that holds no whitespace. */
  function Word(s: string): (w: string)
    ensures |w| <= |s| && w == s[..|w|] && NoSpace(w)
    ensures |w| < |s| ==> IsSpace(s[|w|])
  {
    if s == [] || IsSpace(s[0]) then [] else [s[0]] + Word(s[1..])
  }

  /** The characters of `s` that are not whitespace, in order. */
  function Squeeze(s: string): string {
    if s == [] then []
    else if IsSpace(s[0]) then Squeeze(s[1..])
    else [s[0]] + Squeeze(s[1..])
  }

  function Concat(ws: seq<string>): string {
    if ws == [] then [] else ws[0] + Concat(ws[1..])
  }

  lemma {:induction false} SqueezeNoSpacePrefix(w: string, rest: string)
    requires NoSpace(w)
    ensures Squeeze(w + rest) == w + Squeeze(rest)
    decreases |w|
  {
    if w == [] {
      assert w + rest == rest;
    } else {
      assert (w + rest)[0] == w[0] && !IsSpace(w[0]);
      assert (w + rest)[1..] == w[1..] + rest;
      assert NoSpace(w[1..]) by {
        forall i | 0 <= i < |w[1..]| ensures !IsSpace(w[1..][i]) { assert w[1..][i] == w[i + 1]; }
      }
      SqueezeNoSpacePrefix(w[1..], rest);
      assert [w[0]] + w[1..] == w;
    }
  }

  /** Python's `s.split()`: the maximal runs of non-whitespace characters, in order.
      No word is empty or holds whitespace, and together they are exactly the
      non-whitespace characters of `s`. */
  function Words(s: string): (ws: seq<string>)
    ensures forall i :: 0 <= i < |ws| ==> ws[i] != [] && NoSpace(ws[i])
    ensures Concat(ws) == Squeeze(s)
    decreases |s|
  {
    if s == [] then []
    else if IsSpace(s[0]) then Words(s[1..])
    else
      var w := Word(s);
      var rest := Words(s[|w|..]);
      assert s == w + s[|w|..];
      SqueezeNoSpacePrefix(w, s[|w|..]);
      [w] + rest
  }

  /** `s.split()` is empty exactly when `s` is all whitespace. */
  lemma {:induction false} WordsEmpty(s: string)
    ensures Words(s) == [] <==> AllSpace(s)
    decreases |s|
  {
    if s != [] {
      WordsEmpty(s[1..]);
      if IsSpace(s[0]) {
        assert AllSpace(s) <==> AllSpace(s[1..]) by {
          if AllSpace(s[1..]) {
            forall i | 0 <= i < |s| ensures IsSpace(s[i]) {
              if i > 0 { assert s[i] == s[1..][i - 1]; }
            }
          }
        }
      }
    }
  }

  lemma WordOf(w: string, post: string)
    requires w != [] && NoSpace(w) && (post == [] || IsSpace(post[0]))
    ensures Word(w + post) == w
  {
    assert (w + post)[..|w|] == w;
  }

  /** The first word of `pre + w + post` is `w` when `pre` is whitespace, `w` holds none
      and `post` is empty or starts with whitespace: the word is kept whole, whatever
      non-whitespace characters (a hyphen, say) it contains. */
  lemma {:induction false} FirstWord(pre: string, w: string, post: string)
    requires AllSpace(pre) && w != [] && NoSpace(w) && (post == [] || IsSpace(post[0]))
    ensures Words(pre + w + post) != [] && Words(pre + w + post)[0] == w
    decreases |pre|
  {
    var s := pre + w + post;
    if pre == [] {
      assert s == w + post;
      WordOf(w, post);
    } else {
      assert IsSpace(s[0]);
      assert s[1..] == pre[1..] + w + post;
      FirstWord(pre[1..], w, post);
    }
  }

  // ---------------------------------------------------------------------------
  // str.split('\n')

  function JoinLines(ls: seq<string>): string
    requires |ls| >= 1
  {
    if |ls| == 1 then ls[0] else ls[0] + "\n" + JoinLines(ls[1..])
  }

  /** Python's `s.split('\n')`: the pieces between newlines, at least one of them. */
  function Lines(s: string): (ls: seq<string>)
    ensures |ls| >= 1
  {
    if s == [] then [""]
    else
      var rest := Lines(s[1..]);
      if s[0] == '\n' then [""] + rest
      else [[s[0]] + rest[0]] + rest[1..]
  }

  /** No piece of `s.split('\n')` holds a newline, and joined with newlines the pieces
      give back `s`. */
  lemma {:induction false} LinesSplit(s: string)
    ensures forall i :: 0 <= i < |Lines(s)| ==> '\n' !in Lines(s)[i]
    ensures JoinLines(Lines(s)) == s
    decreases |s|
  {
    if s != [] {
      LinesSplit(s[1..]);
      var rest := Lines(s[1..]);
      var ls := Lines(s);
      if s[0] == '\n' {
        assert ls == [""] + rest && ls[1..] == rest;
        assert s == "\n" + s[1..];
      } else {
        assert ls == [[s[0]] + rest[0]] + rest[1..] && ls[1..] == rest[1..];
        assert s == [s[0]] + s[1..];
        forall i | 0 <= i < |ls| ensures '\n' !in ls[i] {
          if i > 0 { assert ls[i] == rest[i]; }
        }
        if |rest| > 1 {
          assert JoinLines(rest) == rest[0] + "\n" + JoinLines(rest[1..]);
        }
      }
    }
  }

  /** `s.split('\n')` has a second piece exactly when `s` holds a newline. */
  lemma {:induction false} LinesHasSecond(s: string)
    ensures |Lines(s)| >= 2 <==> '\n' in s
    decreases |s|
  {
    if s != [] {
      LinesHasSecond(s[1..]);
      assert '\n' in s <==> s[0] == '\n' || '\n' in s[1..];
    }
  }

  lemma {:induction false} LinesNoNewlinePrefix(p: string, x: string)
    requires '\n' !in p
    ensures Lines(p + x) == [p + Lines(x)[0]] + Lines(x)[1..]
    decreases |p|
  {
    if p == [] {
      assert p + x == x;
      var l := Lines(x);
      assert p + l[0] == l[0];
      assert l == [l[0]] + l[1..];
    } else {
      assert (p + x)[0] == p[0] != '\n';
      assert (p + x)[1..] == p[1..] + x;
      assert '\n' !in p[1..];
      LinesNoNewlinePrefix(p[1..], x);
      var r := Lines(p[1..] + x);
      assert Lines(p + x) == [[p[0]] + r[0]] + r[1..];
      assert [p[0]] + (p[1..] + Lines(x)[0]) == p + Lines(x)[0];
    }
  }

  /** A leading newline splits off an empty first piece. */
  lemma LinesAfterNewline(t: string)
    ensures Lines("\n" + t) == [""] + Lines(t)
  {
    var s := "\n" + t;
    assert s[0] == '\n' && s[1..] == t;
  }

  /** The first piece of `line + rest` is `line` when `line` holds no newline and
      `rest` is empty or starts a new line. */
  lemma LinesFirstPiece(line: string, rest: string)
    requires '\n' !in line && (rest == [] || rest[0] == '\n')
    ensures Lines(line + rest)[0] == line
  {
    LinesNoNewlinePrefix(line, rest);
    if rest != [] {
      assert rest == "\n" + rest[1..];
      LinesAfterNewline(rest[1..]);
    }
  }

  /** After a first piece without a newline, the pieces of `first + "\n" + t` from
      index 1 on are the pieces of `t`. */
  lemma LinesAfterFirst(first: string, t: string)
    requires '\n' !in first
    ensures Lines(first + "\n" + t) == [first] + Lines(t)
  {
    var x := "\n" + t;
    assert first + "\n" + t == first + x;
    LinesNoNewlinePrefix(first, x);
    LinesAfterNewline(t);
    assert Lines(x)[0] == "" && Lines(x)[1..] == Lines(t);
    assert first + "" == first;
  }

  /** In `first + "\n" + second + rest`, with no newline in the first two parts and
      `rest` empty or starting a new line, the piece at index 1 is `second`. */
  lemma SecondLine(first: string, second: string, rest: string)
    requires '\n' !in first && '\n' !in second && (rest == [] || rest[0] == '\n')
    ensures |Lines(first + "\n" + second + rest)| >= 2
    ensures Lines(first + "\n" + second + rest)[1] == second
  {
    var t := second + rest;
    assert first + "\n" + second + rest == first + "\n" + t;
    LinesAfterFirst(first, t);
    LinesFirstPiece(second, rest);
  }

  // ---------------------------------------------------------------------------
  // str.lower()

  /** ASCII upper-case letters become lower-case; every other character is kept. */
  function LowerChar(c: char): (d: char)
    ensures !('A' <= d <= 'Z')
    ensures 'a' <= d <= 'z' ==> (c == d || c as int == d as int - 32)
    ensures !('A' <= c <= 'Z') ==> d == c
  {
    if 'A' <= c <= 'Z' then (c as int + 32) as char else c
  }

  /** `s.lower()`, character by character. */
  function Lower(s: string): (r: string)
    ensures |r| == |s|
    ensures forall i :: 0 <= i < |s| ==> r[i] == LowerChar(s[i])
  {
    if s == [] then [] else [LowerChar(s[0])] + Lower(s[1..])
  }

  /** Lower-casing twice is lower-casing once: keys already lower-case are left alone. */
  lemma LowerIdempotent(s: string)
    ensures Lower(Lower(s)) == Lower(s)
  {
    assert forall i :: 0 <= i < |s| ==> LowerChar(LowerChar(s[i])) == LowerChar(s[i]);
  }

  /** A text without upper-case ASCII letters is its own lower-case form. */
  lemma LowerKeepsLowerCase(s: string)
    requires forall i :: 0 <= i < |s| ==> !('A' <= s[i] <= 'Z')
    ensures Lower(s) == s
  {
  }

  // ---------------------------------------------------------------------------
  // Reading back the last field of a space-separated line

  /** The longest suffix of `s` that holds no whitespace. */
  function LastWord(s: string): (w: string)
    ensures |w| <= |s| && w == s[|s| - |w|..] && NoSpace(w)
    ensures |w| < |s| ==> IsSpace(s[|s| - |w| - 1])
  {
    if s == [] || IsSpace(s[|s| - 1]) then []
    else LastWord(s[..|s| - 1]) + [s[|s| - 1]]
  }

  /** A whitespace-free last field after a space is recovered whole. */
  lemma {:induction false} LastWordAfterSpace(p: string, t: string)
    requires NoSpace(t)
    ensures LastWord(p + " " + t) == t
    decreases |t|
  {
    var s := p + " " + t;
    if t == [] {
      assert s[|s| - 1] == ' ';
    } else {
      var u := t[..|t| - 1];
      assert s[|s| - 1] == t[|t| - 1];
      assert s[..|s| - 1] == p + " " + u;
      assert NoSpace(u) by {
        forall i | 0 <= i < |u| ensures !IsSpace(u[i]) { assert u[i] == t[i]; }
      }
      LastWordAfterSpace(p, u);
      assert u + [t[|t| - 1]] == t;
    }
  }
}
