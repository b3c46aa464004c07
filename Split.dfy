/** Java's `String.split(",")` (a one-character, non-regex-special delimiter
    and limit 0): cut at every comma, keep leading and interior empty
    tokens, drop trailing empty ones, and return the input unchanged as the
    only token when it holds no comma at all. */
module JavaSplit {

  const Delim: char := ','

  /** Every piece between commas, in order, with none dropped. */
  function Fields(s: string): (r: seq<string>)
    ensures |r| >= 1
    ensures forall i :: 0 <= i < |r| ==> Delim !in r[i]
    decreases |s|
  {
    if s == [] then [""]
    else
      var rest := Fields(s[1..]);
      if s[0] == Delim then [""] + rest
      else [[s[0]] + rest[0]] + rest[1..]
  }

  /** The pieces glued back together with a comma between neighbours. */
  function Join(pieces: seq<string>): string
  {
    if |pieces| == 0 then ""
    else if |pieces| == 1 then pieces[0]
    else pieces[0] + [Delim] + Join(pieces[1..])
  }

  /** `pieces` without its run of trailing empty strings. */
  function DropTrailingEmpty(pieces: seq<string>): (r: seq<string>)
    ensures |r| <= |pieces| && r == pieces[..|r|]
    ensures forall k :: |r| <= k < |pieces| ==> pieces[k] == ""
    ensures r == [] || r[|r| - 1] != ""
  {
    if |pieces| > 0 && pieces[|pieces| - 1] == "" then DropTrailingEmpty(pieces[..|pieces| - 1])
    else pieces
  }

  /** `s.split(",")`. */
  function Split(s: string): (tokens: seq<string>)
    ensures Delim !in s ==> tokens == [s]
    ensures Delim in s ==> |tokens| <= |Fields(s)| && tokens == Fields(s)[..|tokens|] && (tokens == [] || tokens[|tokens| - 1] != "")
    ensures Delim in s ==> forall k :: |tokens| <= k < |Fields(s)| ==> Fields(s)[k] == ""
    ensures forall i :: 0 <= i < |tokens| ==> Delim !in tokens[i]
  {
    if Delim !in s then [s] else DropTrailingEmpty(Fields(s))
  }

  /** `n` empty strings. */
  function Blanks(n: nat): (r: seq<string>)
    ensures |r| == n && forall k :: 0 <= k < n ==> r[k] == ""
  {
    seq(n, _ => "")
  }

  /** One unfolding of `Join` at the front. */
  lemma JoinCons(x: string, ys: seq<string>)
    ensures Join([x] + ys) == if ys == [] then x else x + [Delim] + Join(ys)
  {
  }

  /** Joining the pieces gives back the string that was cut. */
  lemma {:induction false} JoinFields(s: string)
    ensures Join(Fields(s)) == s
    decreases |s|
  {
    if s != [] {
      var rest := Fields(s[1..]);
      JoinFields(s[1..]);
      assert Join(rest) == s[1..];
      if s[0] == Delim {
        assert Fields(s) == [""] + rest;
        JoinCons("", rest);
        assert s == [Delim] + s[1..];
      } else {
        assert Fields(s) == [[s[0]] + rest[0]] + rest[1..];
        JoinCons([s[0]] + rest[0], rest[1..]);
        JoinCons(rest[0], rest[1..]);
        assert [rest[0]] + rest[1..] == rest;
        assert s == [s[0]] + s[1..];
      }
    }
  }

  /** A comma-free prefix only extends the first piece. */
  lemma {:induction false} FieldsOfCommaFreePrefix(a: string, t: string)
    requires Delim !in a
    ensures Fields(a + t) == [a + Fields(t)[0]] + Fields(t)[1..]
    decreases |a|
  {
    if a != [] {
      var at := a + t;
      assert a[0] in a;
      assert at[0] == a[0] && at[1..] == a[1..] + t;
      FieldsOfCommaFreePrefix(a[1..], t);
      var rest := Fields(at[1..]);
      assert rest == [a[1..] + Fields(t)[0]] + Fields(t)[1..];
      assert Fields(at) == [[a[0]] + rest[0]] + rest[1..];
      assert [a[0]] + (a[1..] + Fields(t)[0]) == a + Fields(t)[0];
    } else {
      assert a + t == t;
      assert a + Fields(t)[0] == Fields(t)[0];
      assert [Fields(t)[0]] + Fields(t)[1..] == Fields(t);
    }
  }

  /** A string without a comma is a single piece. */
  lemma FieldsOfCommaFree(s: string)
    requires Delim !in s
    ensures Fields(s) == [s]
  {
    FieldsOfCommaFreePrefix(s, "");
    assert s + "" == s;
  }

  /** Cutting a join of comma-free pieces gives back the pieces. */
  lemma {:induction false} FieldsJoin(pieces: seq<string>)
    requires |pieces| >= 1
    requires forall i :: 0 <= i < |pieces| ==> Delim !in pieces[i]
    ensures Fields(Join(pieces)) == pieces
    decreases |pieces|
  {
    if |pieces| == 1 {
      FieldsOfCommaFreePrefix(pieces[0], "");
      assert pieces[0] + "" == pieces[0];
    } else {
      var rest := pieces[1..];
      FieldsJoin(rest);
      var t := [Delim] + Join(rest);
      assert t[0] == Delim && t[1..] == Join(rest);
      assert Fields(t) == [""] + rest;
      FieldsOfCommaFreePrefix(pieces[0], t);
      assert pieces[0] + t == Join(pieces);
      assert pieces[0] + "" == pieces[0];
      assert [pieces[0]] + rest == pieces;
    }
  }

  /** The tokens followed by the dropped empty pieces are exactly the pieces. */
  lemma SplitThenBlanks(s: string)
    ensures |Split(s)| <= |Fields(s)|
    ensures Split(s) + Blanks(|Fields(s)| - |Split(s)|) == Fields(s)
  {
    var tokens, pieces := Split(s), Fields(s);
    if Delim !in s {
      FieldsOfCommaFree(s);
      PrefixThenBlanks(pieces, tokens);
    } else {
      PrefixThenBlanks(pieces, tokens);
    }
  }

  /** A prefix followed by only empty strings, padded back with blanks, is the whole. */
  lemma PrefixThenBlanks(pieces: seq<string>, prefix: seq<string>)
    requires |prefix| <= |pieces| && prefix == pieces[..|prefix|]
    requires forall k :: |prefix| <= k < |pieces| ==> pieces[k] == ""
    ensures prefix + Blanks(|pieces| - |prefix|) == pieces
  {
  }

  /** So the input is recovered from its tokens and the number of dropped
      trailing commas. */
  lemma SplitRecovers(s: string)
    ensures |Split(s)| <= |Fields(s)|
    ensures Join(Split(s) + Blanks(|Fields(s)| - |Split(s)|)) == s
  {
    SplitThenBlanks(s);
    JoinFields(s);
  }

  /** `split` undoes a join of comma-free tokens as long as a join of several
      tokens does not end in an empty one (that one would be dropped). */
  lemma SplitJoin(tokens: seq<string>)
    requires |tokens| >= 1
    requires forall i :: 0 <= i < |tokens| ==> Delim !in tokens[i]
    requires |tokens| == 1 || tokens[|tokens| - 1] != ""
    ensures Split(Join(tokens)) == tokens
  {
    if |tokens| > 1 {
      JoinCons(tokens[0], tokens[1..]);
      assert [tokens[0]] + tokens[1..] == tokens;
      assert Join(tokens)[|tokens[0]|] == Delim;
      FieldsJoin(tokens);
    }
  }

  /** The edge cases: the empty input is one empty token, a lone comma or a
      run of commas gives no token at all, and trailing commas add no token. */
  lemma SplitEdgeCases()
    ensures Split("") == [""]
    ensures Split(",") == []
    ensures Split(",,") == []
    ensures Split("A,,") == ["A"]
  {
    var pieces := ["A", "", ""];
    assert Join(pieces) == "A,," by {
      JoinCons("", [""]);
      JoinCons("A", ["", ""]);
      assert ["A"] + ["", ""] == pieces;
    }
    FieldsJoin(pieces);
    assert "A,,"[1] == Delim;
    var tokens := Split("A,,");
    assert tokens == pieces[..|tokens|];
    assert |tokens| == 1 by { assert pieces[0] != "" && pieces[1] == "" && pieces[2] == ""; }
  }

  /** Empty leading and interior tokens are kept. */
  lemma SplitKeepsInteriorBlanks()
    ensures Split(",a,,b") == ["", "a", "", "b"]
  {
    var tokens := ["", "a", "", "b"];
    assert Join(tokens) == ",a,,b" by {
      JoinCons("", ["b"]);
      JoinCons("a", ["", "b"]);
      JoinCons("", ["a", "", "b"]);
      assert [""] + ["a", "", "b"] == tokens;
    }
    SplitJoin(tokens);
  }
}
