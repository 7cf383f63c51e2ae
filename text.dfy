/**
 * The AI service's transcript text helpers: `clean_transcript`
 * (`re.sub(r'\s+', ' ', text).strip()`), Python's `str.split()` and
 * `" ".join(...)`, and the summary used when the summarising call fails.
 */
module Text {

  /**
   * Python's whitespace: the characters `str.isspace()` accepts, which are also
   * those `\s` matches in a `str` pattern and those `str.split()` and
   * `str.strip()` remove.
   */
  predicate IsSpace(c: char)
  {
    || ('\U{9}' <= c <= '\U{D}')
    || ('\U{1C}' <= c <= '\U{20}')
    || c == '\U{85}' || c == '\U{A0}' || c == '\U{1680}'
    || ('\U{2000}' <= c <= '\U{200A}')
    || c == '\U{2028}' || c == '\U{2029}' || c == '\U{202F}' || c == '\U{205F}' || c == '\U{3000}'
  }

  /** A word as `str.split()` yields it: non-empty, without whitespace. */
  predicate IsWord(w: string)
  {
    w != [] && forall i :: 0 <= i < |w| ==> !IsSpace(w[i])
  }

  /** `str.lstrip()`: the string after its leading whitespace. */
  function DropSpaces(s: string): (r: string)
    ensures |r| <= |s|
    ensures r == [] || !IsSpace(r[0])
    ensures forall i :: 0 <= i < |s| - |r| ==> IsSpace(s[i])
    ensures s != [] && IsSpace(s[0]) ==> |r| < |s|
  {
    if s != [] && IsSpace(s[0]) then DropSpaces(s[1..]) else s
  }

  /** `str.rstrip()`: the string before its trailing whitespace. */
  function StripRight(s: string): (r: string)
    ensures |r| <= |s| && r == s[..|r|]
    ensures r == [] || !IsSpace(r[|r| - 1])
    ensures forall i :: |r| <= i < |s| ==> IsSpace(s[i])
  {
    if s != [] && IsSpace(s[|s| - 1]) then StripRight(s[..|s| - 1]) else s
  }

  /** `str.strip()` */
  function Strip(s: string): string
  {
    StripRight(DropSpaces(s))
  }

  /**
   * `r` is what `s.strip()` gives: a slice of `s` with only whitespace cut
   * off on either side, and no whitespace left at either end.
   */
  ghost predicate IsStripOf(s: string, r: string)
  {
    && (r == [] || (!IsSpace(r[0]) && !IsSpace(r[|r| - 1])))
    && exists a, b :: StripCut(s, r, a, b)
  }

  /** `r` is `s[a..b]`, and everything of `s` outside `[a, b)` is whitespace. */
  predicate StripCut(s: string, r: string, a: int, b: int)
  {
    && 0 <= a <= b <= |s| && r == s[a..b]
    && (forall i :: 0 <= i < a ==> IsSpace(s[i]))
    && (forall i :: b <= i < |s| ==> IsSpace(s[i]))
  }

  /** `re.sub(r'\s+', ' ', s)`: every maximal whitespace run becomes one space. */
  function Collapse(s: string): string
    decreases |s|
  {
    if s == [] then []
    else if IsSpace(s[0]) then " " + Collapse(DropSpaces(s))
    else [s[0]] + Collapse(s[1..])
  }

  /** `clean_transcript` */
  function CleanTranscript(text: string): string
  {
    Strip(Collapse(text))
  }

  /** The longest prefix without whitespace. */
  function TakeWord(s: string): (w: string)
    ensures |w| <= |s| && w == s[..|w|]
    ensures forall i :: 0 <= i < |w| ==> !IsSpace(w[i])
    ensures |w| == |s| || IsSpace(s[|w|])
    ensures s != [] && !IsSpace(s[0]) ==> IsWord(w)
  {
    if s != [] && !IsSpace(s[0]) then [s[0]] + TakeWord(s[1..]) else []
  }

  /** `str.split()` with no arguments: the maximal runs of non-whitespace, in order. */
  function Words(s: string): (ws: seq<string>)
    ensures forall i :: 0 <= i < |ws| ==> IsWord(ws[i])
    decreases |s|
  {
    var r := DropSpaces(s);
    if r == [] then []
    else
      var w := TakeWord(r);
      var ws := Words(r[|w|..]);
      ConsWords(w, ws);
      [w] + ws
  }

  /** Putting a word in front of a list of words gives a list of words. */
  lemma ConsWords(w: string, ws: seq<string>)
    requires IsWord(w) && forall i :: 0 <= i < |ws| ==> IsWord(ws[i])
    ensures forall i :: 0 <= i < |[w] + ws| ==> IsWord(([w] + ws)[i])
  {
    forall i | 0 <= i < |[w] + ws|
      ensures IsWord(([w] + ws)[i])
    {
      if i > 0 {
        assert ([w] + ws)[i] == ws[i - 1];
      }
    }
  }

  /** `sep.join(ws)` */
  function Join(ws: seq<string>, sep: string): string
  {
    if |ws| == 0 then []
    else if |ws| == 1 then ws[0]
    else ws[0] + sep + Join(ws[1..], sep)
  }

  /** `ws[:n]` */
  function Take<T>(ws: seq<T>, n: nat): (r: seq<T>)
    ensures |r| <= n && |r| <= |ws| && r == ws[..|r|]
    ensures |ws| <= n ==> r == ws
    ensures |ws| > n ==> |r| == n
  {
    if |ws| <= n then ws else ws[..n]
  }

  /** The summary used when the summarising call raises: `" ".join(text.split()[:100]) + "..."`. */
  function SummaryFallback(transcript: string): string
  {
    Join(Take(Words(transcript), 100), " ") + "..."
  }

  /** A string in the form `clean_transcript` produces. */
  predicate IsClean(s: string)
  {
    && (s == [] || (!IsSpace(s[0]) && !IsSpace(s[|s| - 1])))
    && (forall i :: 0 <= i < |s| - 1 ==> !(IsSpace(s[i]) && IsSpace(s[i + 1])))
    && (forall i :: 0 <= i < |s| ==> IsSpace(s[i]) ==> s[i] == ' ')
  }

  /** `str.lstrip()` removes a prefix: what is left is a suffix of the string. */
  lemma {:induction false} DropSpacesIsSuffix(s: string)
    ensures DropSpaces(s) == s[|s| - |DropSpaces(s)|..]
    decreases |s|
  {
    if s != [] && IsSpace(s[0]) {
      DropSpacesIsSuffix(s[1..]);
      var n := |DropSpaces(s)|;
      assert s[1..][|s| - 1 - n..] == s[|s| - n..];
    }
  }

  // ---- lemmas on split and join ----

  lemma DropSpacesOfSpace(c: char, s: string)
    requires IsSpace(c)
    ensures DropSpaces([c] + s) == DropSpaces(s)
  {
    var t := [c] + s;
    assert t[0] == c && t[1..] == s;
    assert DropSpaces(t) == DropSpaces(t[1..]);
  }

  /** A whitespace character in front does not change the words. */
  lemma WordsOfSpace(c: char, s: string)
    requires IsSpace(c)
    ensures Words([c] + s) == Words(s)
  {
    DropSpacesOfSpace(c, s);
  }

  lemma {:induction false} TakeWordOfWord(w: string, rest: string)
    requires forall i :: 0 <= i < |w| ==> !IsSpace(w[i])
    requires rest == [] || IsSpace(rest[0])
    ensures TakeWord(w + rest) == w
  {
    if w != [] {
      assert (w + rest)[1..] == w[1..] + rest;
      TakeWordOfWord(w[1..], rest);
    }
  }

  /** A word followed by nothing or by whitespace is split off as the first word. */
  lemma WordsOfWordThen(w: string, rest: string)
    requires IsWord(w)
    requires rest == [] || IsSpace(rest[0])
    ensures Words(w + rest) == [w] + Words(rest)
  {
    TakeWordOfWord(w, rest);
    assert (w + rest)[|w|..] == rest;
  }

  /** Splitting a space-joined list of words gives the list back. */
  lemma {:induction false} WordsOfJoin(ws: seq<string>)
    requires forall i :: 0 <= i < |ws| ==> IsWord(ws[i])
    ensures Words(Join(ws, " ")) == ws
  {
    if |ws| == 1 {
      WordsOfWordThen(ws[0], []);
      assert ws[0] + [] == ws[0];
    } else if |ws| > 1 {
      var rest := Join(ws[1..], " ");
      var tail := [' '] + rest;
      assert Join(ws, " ") == ws[0] + tail;
      calc {
        Words(Join(ws, " "));
        Words(ws[0] + tail);
        { WordsOfWordThen(ws[0], tail); }
        [ws[0]] + Words(tail);
        { WordsOfSpace(' ', rest); }
        [ws[0]] + Words(rest);
        { WordsOfJoin(ws[1..]); }
        [ws[0]] + ws[1..];
        ws;
      }
    }
  }

  /** A space-joined list of words is in clean form, and non-empty when the list is. */
  lemma {:induction false} JoinIsClean(ws: seq<string>)
    requires forall i :: 0 <= i < |ws| ==> IsWord(ws[i])
    ensures IsClean(Join(ws, " "))
    ensures ws != [] ==> Join(ws, " ") != []
  {
    if |ws| > 1 {
      var w := ws[0];
      var rest := Join(ws[1..], " ");
      JoinIsClean(ws[1..]);
      var s := Join(ws, " ");
      assert s == w + " " + rest;
      forall i | 0 <= i < |s| - 1
        ensures !(IsSpace(s[i]) && IsSpace(s[i + 1]))
      {
        if i < |w| - 1 {
          assert s[i] == w[i];
        } else if i == |w| - 1 {
          assert s[i] == w[i];
        } else if i == |w| {
          assert s[i + 1] == rest[0];
        } else {
          assert s[i] == rest[i - |w| - 1] && s[i + 1] == rest[i - |w|];
        }
      }
      forall i | 0 <= i < |s|
        ensures IsSpace(s[i]) ==> s[i] == ' '
      {
        if i < |w| {
          assert s[i] == w[i];
        } else if i > |w| {
          assert s[i] == rest[i - |w| - 1];
        }
      }
      assert s[|s| - 1] == rest[|rest| - 1];
    }
  }

  // ---- lemmas on clean_transcript ----

  lemma {:induction false} CollapseWordThen(w: string, rest: string)
    requires forall i :: 0 <= i < |w| ==> !IsSpace(w[i])
    ensures Collapse(w + rest) == w + Collapse(rest)
  {
    if w != [] {
      CollapseWordThen(w[1..], rest);
      assert w == [w[0]] + w[1..];
      AppendAssoc([w[0]], w[1..], rest);
      CollapseOfWordChar(w[0], w[1..] + rest);
      AppendAssoc([w[0]], w[1..], Collapse(rest));
    } else {
      EmptyFront(rest);
      EmptyFront(Collapse(rest));
    }
  }

  /** A character that is not whitespace is copied by collapsing. */
  lemma CollapseOfWordChar(c: char, r: string)
    requires !IsSpace(c)
    ensures Collapse([c] + r) == [c] + Collapse(r)
  {
    var s := [c] + r;
    assert s[0] == c && s[1..] == r;
  }

  /** `" "` when the string starts with whitespace, otherwise empty. */
  function Lead(s: string): string
  {
    if s != [] && IsSpace(s[0]) then " " else []
  }

  /** `" "` when the string ends with whitespace, otherwise empty. */
  function Trail(s: string): string
  {
    if s != [] && IsSpace(s[|s| - 1]) then " " else []
  }

  /**
   * Collapsing whitespace leaves the words joined by single spaces, with one
   * space in front when the input started with whitespace and one behind when
   * it ended with whitespace.
   */
  lemma {:induction false} CollapseShape(s: string)
    ensures Words(s) == [] ==> Collapse(s) == (if s == [] then [] else " ")
    ensures Words(s) != [] ==> Collapse(s) == Lead(s) + Join(Words(s), " ") + Trail(s)
    decreases |s|, 1
  {
    if s == [] {
    } else if IsSpace(s[0]) {
      CollapseShapeFromSpace(s);
    } else {
      CollapseShapeFromWord(s);
      assert Lead(s) == [];
      EmptyFront(Join(Words(s), " "));
    }
  }

  lemma {:induction false} CollapseShapeFromSpace(s: string)
    requires s != [] && IsSpace(s[0])
    ensures Words(s) == [] ==> Collapse(s) == " "
    ensures Words(s) != [] ==> Collapse(s) == Lead(s) + Join(Words(s), " ") + Trail(s)
    decreases |s|, 0
  {
    var d := DropSpaces(s);
    assert Words(s) == Words(d) by {
      assert DropSpaces(d) == d;
    }
    assert Collapse(s) == " " + Collapse(d);
    if d == [] {
      assert Collapse(s) == " ";
    } else {
      CollapseShape(d);
      SpacesThenWord(s, d);
    }
  }

  lemma SpacesThenWord(s: string, d: string)
    requires s != [] && IsSpace(s[0]) && d == DropSpaces(s) && d != []
    requires Words(s) == Words(d) && Collapse(s) == " " + Collapse(d)
    requires Words(d) != [] ==> Collapse(d) == Lead(d) + Join(Words(d), " ") + Trail(d)
    ensures Words(s) != [] && Collapse(s) == Lead(s) + Join(Words(s), " ") + Trail(s)
  {
    StartsWithWord(d);
    DropSpacesIsSuffix(s);
    SameTrail(s, d, |s| - |d|);
    var j := Join(Words(s), " ");
    var t := Trail(s);
    assert Collapse(d) == j + t by {
      EmptyFront(j);
    }
    assert Lead(s) == " ";
    AppendAssoc(" ", j, t);
  }

  lemma StartsWithWord(d: string)
    requires d != [] && !IsSpace(d[0])
    ensures Words(d) != [] && Lead(d) == []
  {
    assert DropSpaces(d) == d;
  }

  /** A non-empty suffix ends with the same character. */
  lemma SameTrail(s: string, d: string, k: nat)
    requires k < |s| && d == s[k..]
    ensures Trail(d) == Trail(s)
  {
    assert d[|d| - 1] == s[|s| - 1];
  }

  lemma {:induction false} CollapseShapeFromWord(s: string)
    requires s != [] && !IsSpace(s[0])
    ensures Words(s) != []
    ensures Collapse(s) == Join(Words(s), " ") + Trail(s)
    decreases |s|, 0
  {
    var w := TakeWord(s);
    var rest := s[|w|..];
    assert s == w + rest;
    CollapseWordThen(w, rest);
    WordsOfWordThen(w, rest);
    if rest == [] {
      WordAlone(s, w, rest);
    } else {
      CollapseShape(rest);
      if Words(rest) == [] {
        WordThenBlank(s, w, rest);
      } else {
        WordThenWords(s, w, rest);
      }
    }
  }

  /** The facts `CollapseShapeFromWord` has once it has split off the first word `w`. */
  predicate SplitAtWord(s: string, w: string, rest: string)
  {
    && s == w + rest && IsWord(w)
    && Collapse(s) == w + Collapse(rest)
    && Words(s) == [w] + Words(rest)
  }

  lemma WordAlone(s: string, w: string, rest: string)
    requires SplitAtWord(s, w, rest) && rest == []
    ensures Words(s) != [] && Collapse(s) == Join(Words(s), " ") + Trail(s)
  {
    assert Collapse(rest) == [] && Words(rest) == [];
    EmptyBack(w);
    assert s == w && Collapse(s) == w;
    assert Words(s) == [w];
    assert Trail(s) == [];
    EmptyBack(Join(Words(s), " "));
  }

  lemma WordThenBlank(s: string, w: string, rest: string)
    requires SplitAtWord(s, w, rest) && rest != []
    requires Words(rest) == [] && Collapse(rest) == " "
    ensures Words(s) != [] && Collapse(s) == Join(Words(s), " ") + Trail(s)
  {
    assert s[|s| - 1] == rest[|rest| - 1];
    assert DropSpaces(rest) == [];
    assert IsSpace(rest[|rest| - 1]);
    assert Words(s) == [w];
    assert Join(Words(s), " ") == w;
    assert Trail(s) == " ";
  }

  lemma WordThenWords(s: string, w: string, rest: string)
    requires SplitAtWord(s, w, rest) && rest != [] && IsSpace(rest[0])
    requires Words(rest) != [] && Collapse(rest) == Lead(rest) + Join(Words(rest), " ") + Trail(rest)
    ensures Words(s) != [] && Collapse(s) == Join(Words(s), " ") + Trail(s)
  {
    var ws := Words(rest);
    var j := Join(ws, " ");
    var t := Trail(s);
    assert s[|s| - 1] == rest[|rest| - 1];
    assert Lead(rest) == " ";
    assert Trail(rest) == t;
    assert ([w] + ws)[1..] == ws;
    assert Join([w] + ws, " ") == w + " " + j;
    assert Collapse(rest) == " " + j + t;
    AppendAssoc(w, " " + j, t);
    AppendAssoc(w, " ", j);
  }

  lemma EmptyFront(a: string)
    ensures [] + a == a
  {
  }

  lemma EmptyBack(a: string)
    ensures a + [] == a
  {
  }

  lemma AppendAssoc(a: string, b: string, c: string)
    ensures a + (b + c) == a + b + c
  {
  }

  lemma StripRightOfSpace(s: string, c: char)
    requires IsSpace(c)
    ensures StripRight(s + [c]) == StripRight(s)
  {
    assert (s + [c])[..|s|] == s;
  }

  lemma StripSurrounded(lead: string, j: string, trail: string)
    requires j != [] && !IsSpace(j[0]) && !IsSpace(j[|j| - 1])
    requires lead == [] || lead == " "
    requires trail == [] || trail == " "
    ensures Strip(lead + j + trail) == j
  {
    var jt := j + trail;
    assert jt[0] == j[0];
    assert DropSpaces(jt) == jt;
    if lead == " " {
      assert lead + j + trail == [' '] + jt;
      DropSpacesOfSpace(' ', jt);
    } else {
      assert lead + j + trail == jt;
    }
    if trail == " " {
      assert jt == j + [' '];
      StripRightOfSpace(j, ' ');
    } else {
      assert jt == j;
    }
    assert StripRight(j) == j;
  }

  /** `Strip` is `str.strip()`: it cuts exactly the whitespace at both ends. */
  lemma StripIsStrip(s: string)
    ensures IsStripOf(s, Strip(s))
  {
    var d := DropSpaces(s);
    DropSpacesIsSuffix(s);
    var a := |s| - |d|;
    var r := StripRight(d);
    TrailingCut(s, d, a, r);
    assert StripCut(s, r, a, a + |r|);
    if r != [] {
      assert r[0] == d[0];
    }
  }

  /** Right-stripping the suffix `s[a..]` cuts only whitespace off the end of `s`. */
  lemma TrailingCut(s: string, d: string, a: nat, r: string)
    requires a <= |s| && d == s[a..] && |r| <= |d| && r == d[..|r|]
    requires forall i :: |r| <= i < |d| ==> IsSpace(d[i])
    ensures r == s[a..a + |r|]
    ensures forall i :: a + |r| <= i < |s| ==> IsSpace(s[i])
  {
    forall i | a + |r| <= i < |s|
      ensures IsSpace(s[i])
    {
      assert s[i] == d[i - a];
    }
  }

  /** `clean_transcript(t)` equals `" ".join(t.split())`. */
  lemma CleanIsJoinOfWords(text: string)
    ensures CleanTranscript(text) == Join(Words(text), " ")
  {
    CollapseShape(text);
    var ws := Words(text);
    if ws != [] {
      JoinIsClean(ws);
      StripSurrounded(Lead(text), Join(ws, " "), Trail(text));
    }
  }

  /**
   * The cleaned transcript has no whitespace at either end, never two
   * whitespace characters in a row, and no whitespace but plain spaces.
   */
  lemma CleanTranscriptIsClean(text: string)
    ensures IsClean(CleanTranscript(text))
  {
    CleanIsJoinOfWords(text);
    JoinIsClean(Words(text));
  }

  /** Cleaning keeps the transcript's words, in order. */
  lemma CleanKeepsWords(text: string)
    ensures Words(CleanTranscript(text)) == Words(text)
  {
    CleanIsJoinOfWords(text);
    WordsOfJoin(Words(text));
  }

  /** Cleaning an already cleaned transcript changes nothing. */
  lemma CleanIdempotent(text: string)
    ensures CleanTranscript(CleanTranscript(text)) == CleanTranscript(text)
  {
    CleanKeepsWords(text);
    CleanIsJoinOfWords(CleanTranscript(text));
    CleanIsJoinOfWords(text);
  }

  /**
   * The fallback summary is the transcript's first (at most) 100 words joined
   * by single spaces, then "..."; for a transcript of at most 100 words the
   * part before "..." is the cleaned transcript.
   */
  lemma SummaryFallbackShape(transcript: string)
    ensures var r := SummaryFallback(transcript);
            && |r| >= 3 && r[|r| - 3..] == "..."
            && Words(r[..|r| - 3]) == Take(Words(transcript), 100)
            && |Words(r[..|r| - 3])| <= 100
            && IsClean(r[..|r| - 3])
            && (|Words(transcript)| <= 100 ==> r[..|r| - 3] == CleanTranscript(transcript))
  {
    var ws := Take(Words(transcript), 100);
    var body := Join(ws, " ");
    var r := SummaryFallback(transcript);
    assert r == body + "...";
    assert r[..|r| - 3] == body;
    assert forall i :: 0 <= i < |ws| ==> ws[i] == Words(transcript)[i];
    WordsOfJoin(ws);
    JoinIsClean(ws);
    CleanIsJoinOfWords(transcript);
  }
}
