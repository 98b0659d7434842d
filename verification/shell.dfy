/** How `os.system` hands a command line to the shell, reduced to what the
    pipeline's command lines use: fields separated by blanks. Quoting, other
    white space and shell metacharacters are not modelled. */
module Shell {
  import opened Strings

  /** The longest blank-free prefix of `s`: the next word when `s` does not
      start with a blank. */
  function Word(s: string): (w: string)
    ensures w <= s && NoSpace(w)
    ensures |w| < |s| ==> s[|w|] == ' '
    ensures s != [] && s[0] != ' ' ==> w != []
  {
    if s == [] || s[0] == ' ' then [] else [s[0]] + Word(s[1..])
  }

  /** The argument vector the shell builds from `s`: maximal blank-free runs,
      left to right; runs of blanks separate words and produce none. */
  function Tokens(s: string): seq<string>
    decreases |s|
  {
    if s == [] then []
    else if s[0] == ' ' then Tokens(s[1..])
    else var w := Word(s); [w] + Tokens(s[|w|..])
  }

  /** Words separated by single blanks, the shape every command line of the
      pipeline is concatenated into. */
  function Join(words: seq<string>): string
  {
    if |words| == 0 then []
    else if |words| == 1 then words[0]
    else words[0] + " " + Join(words[1..])
  }

  /** The words of a list that are not empty, in order. */
  function DropEmpty(words: seq<string>): seq<string>
  {
    if words == [] then []
    else (if words[0] == [] then [] else [words[0]]) + DropEmpty(words[1..])
  }

  /** A list of words that survives the shell unchanged: none empty, none
      containing a blank. */
  predicate CleanWords(words: seq<string>)
  {
    forall i | 0 <= i < |words| :: words[i] != [] && NoSpace(words[i])
  }

  /** Words none of which contains a blank. */
  predicate BlankFree(words: seq<string>)
  {
    forall i | 0 <= i < |words| :: NoSpace(words[i])
  }

  /** A blank-free word followed by a blank (or nothing) is read back as
      exactly that word. */
  lemma {:induction false} WordBeforeBlank(w: string, t: string)
    requires NoSpace(w)
    requires t == [] || t[0] == ' '
    ensures Word(w + t) == w
    decreases |w|
  {
    if w != [] {
      assert (w + t)[1..] == w[1..] + t;
      WordBeforeBlank(w[1..], t);
    }
  }

  /** A leading blank produces no word. */
  lemma TokensAfterBlank(t: string)
    ensures Tokens(" " + t) == Tokens(t)
  {
    assert (" " + t)[1..] == t;
  }

  /** A non-empty blank-free word that ends at a blank (or at the end of the
      line) is the next argument. */
  lemma TokensOfWord(w: string, t: string)
    requires w != [] && NoSpace(w)
    requires t == [] || t[0] == ' '
    ensures Tokens(w + t) == [w] + Tokens(t)
  {
    WordBeforeBlank(w, t);
    assert (w + t)[|w|..] == t;
  }

  /** Splitting a line joined from blank-free words gives back the words,
      except that the empty ones vanish: an empty string concatenated into a
      command line is no argument at all. */
  lemma {:induction false} TokensOfJoin(words: seq<string>)
    requires BlankFree(words)
    ensures Tokens(Join(words)) == DropEmpty(words)
    decreases |words|
  {
    if |words| == 1 {
      assert words[1..] == [];
      if words[0] != [] {
        TokensOfWord(words[0], []);
        assert words[0] + [] == words[0];
      }
    } else if |words| > 1 {
      var rest := Join(words[1..]);
      assert Join(words) == words[0] + (" " + rest);
      if words[0] != [] {
        TokensOfWord(words[0], " " + rest);
      } else {
        assert Join(words) == " " + rest;
      }
      TokensAfterBlank(rest);
      TokensOfJoin(words[1..]);
    }
  }

  /** When no word is empty, nothing is dropped: the shell receives exactly
      the arguments the command line was built from. */
  lemma TokensOfCleanJoin(words: seq<string>)
    requires CleanWords(words)
    ensures Tokens(Join(words)) == words
  {
    TokensOfJoin(words);
    DropEmptyOfClean(words);
  }

  lemma {:induction false} DropEmptyOfClean(words: seq<string>)
    requires CleanWords(words)
    ensures DropEmpty(words) == words
    decreases |words|
  {
    if words != [] {
      DropEmptyOfClean(words[1..]);
    }
  }
}
