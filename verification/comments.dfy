/**
 * Block-comment removal shared by the model-description tokenizer and the
 * text-texture loader: every `<**` token outside a comment opens one, the next
 * `**>` token closes it, and the opening token, the closing token and all tokens
 * between them are dropped. Comments do not nest.
 */
module Comments {

  const Open: string := "<**"
  const Close: string := "**>"

  /** The tokens the scan keeps from `toks`, starting inside a comment when `inComment`. */
  function Strip(toks: seq<string>, inComment: bool): seq<string>
  {
    if toks == [] then []
    else if inComment then Strip(toks[1..], toks[0] != Close)
    else if toks[0] == Open then Strip(toks[1..], true)
    else [toks[0]] + Strip(toks[1..], false)
  }

  /** Whether the scan is inside a comment after reading `toks`. */
  function EndsInComment(toks: seq<string>, inComment: bool): bool
  {
    if toks == [] then inComment
    else if inComment then EndsInComment(toks[1..], toks[0] != Close)
    else EndsInComment(toks[1..], toks[0] == Open)
  }

  /** The scan loop with its `in_comment` flag. */
  method StripComments(toks: seq<string>) returns (kept: seq<string>)
    ensures kept == Strip(toks, false)
  {
    kept := [];
    var inComment := false;
    var i := 0;
    while i < |toks|
      invariant 0 <= i <= |toks|
      invariant kept + Strip(toks[i..], inComment) == Strip(toks, false)
    {
      var token := toks[i];
      assert toks[i..][1..] == toks[i + 1..];
      if inComment {
        if token == Close {
          inComment := false;
        }
      } else {
        if token == Open {
          inComment := true;
        } else {
          kept := kept + [token];
        }
      }
      i := i + 1;
    }
    assert toks[i..] == [];
  }

  /** Scanning a concatenation is scanning each part, the second starting in the state the first left. */
  lemma {:induction false} StripAppend(a: seq<string>, b: seq<string>, inComment: bool)
    ensures Strip(a + b, inComment) == Strip(a, inComment) + Strip(b, EndsInComment(a, inComment))
    decreases |a|
  {
    if a != [] {
      assert (a + b)[1..] == a[1..] + b;
      var next := if inComment then a[0] != Close else a[0] == Open;
      StripAppend(a[1..], b, next);
    } else {
      assert a + b == b;
    }
  }

  /** Inside a comment, a body without `**>` yields nothing and leaves the scan inside the comment. */
  lemma {:induction false} CommentBodyDropped(body: seq<string>)
    requires Close !in body
    ensures Strip(body, true) == []
    ensures EndsInComment(body, true)
    decreases |body|
  {
    if body != [] {
      CommentBodyDropped(body[1..]);
    }
  }

  /**
   * A comment opened outside a comment is dropped together with its delimiters,
   * whatever it contains short of `**>` (a nested `<**` is skipped, comments do
   * not nest), and the tokens around it are kept in order.
   */
  lemma DropsComment(pre: seq<string>, body: seq<string>, post: seq<string>)
    requires !EndsInComment(pre, false)
    requires Close !in body
    ensures Strip(pre + [Open] + body + [Close] + post, false) == Strip(pre, false) + Strip(post, false)
  {
    var tail := [Open] + body + [Close] + post;
    assert pre + [Open] + body + [Close] + post == pre + tail;
    StripAppend(pre, tail, false);
    assert tail[1..] == body + ([Close] + post);
    StripAppend(body, [Close] + post, true);
    CommentBodyDropped(body);
    assert ([Close] + post)[1..] == post;
  }

  /** A stream without `<**` is kept whole and in order. */
  lemma {:induction false} KeepsPlainTokens(toks: seq<string>)
    requires Open !in toks
    ensures Strip(toks, false) == toks
    ensures !EndsInComment(toks, false)
    decreases |toks|
  {
    if toks != [] {
      KeepsPlainTokens(toks[1..]);
    }
  }

  /** An opening token never survives the scan. */
  lemma {:induction false} NoOpenKept(toks: seq<string>, inComment: bool)
    ensures Open !in Strip(toks, inComment)
    decreases |toks|
  {
    if toks != [] {
      NoOpenKept(toks[1..], if inComment then toks[0] != Close else toks[0] == Open);
    }
  }

  /** Every kept token is a token of the input: the scan only drops. */
  lemma {:induction false} KeptFromInput(toks: seq<string>, inComment: bool)
    ensures |Strip(toks, inComment)| <= |toks|
    ensures forall t :: t in Strip(toks, inComment) ==> t in toks
    decreases |toks|
  {
    if toks != [] {
      KeptFromInput(toks[1..], if inComment then toks[0] != Close else toks[0] == Open);
    }
  }
}
