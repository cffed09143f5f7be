/**
 Models splitPersonName of backend/src/endpoints/auth/keycloak.service.ts: one
 free-text name becomes the first and last name that Keycloak insists on.
 */
module PersonName {
  import opened Wrappers

  // ----- the string operations it is built from -----

  /** The white space and line terminators that both `trim` and `\s` know. */
  predicate IsSpace(c: char) {
    c in "\t\n\U{000B}\U{000C}\r \U{00A0}\U{1680}\U{2028}\U{2029}\U{202F}\U{205F}\U{3000}\U{FEFF}"
        || '\U{2000}' <= c <= '\U{200A}'
  }

  predicate SpaceFree(s: string) {
    forall c | c in s :: !IsSpace(c)
  }

  predicate Blank(s: string) {
    forall c | c in s :: IsSpace(c)
  }

  function TrimStart(s: string): (r: string)
    ensures |r| <= |s| && (r == "" || !IsSpace(r[0]))
  {
    if s != "" && IsSpace(s[0]) then TrimStart(s[1..]) else s
  }

  function TrimEnd(s: string): string {
    if s != "" && IsSpace(s[|s| - 1]) then TrimEnd(s[..|s| - 1]) else s
  }

  function Trim(s: string): string {
    TrimEnd(TrimStart(s))
  }

  /** The length of the longest space-free start of `s`. */
  function WordLength(s: string): (n: nat)
    ensures n <= |s| && SpaceFree(s[..n]) && (n == |s| || IsSpace(s[n]))
  {
    if s == "" || IsSpace(s[0]) then 0
    else
      assert forall c | c in s :: c == s[0] || c in s[1..];
      var n := WordLength(s[1..]);
      assert s[..n + 1] == [s[0]] + s[1..][..n];
      n + 1
  }

  /** split(/\s+/): the pieces between runs of white space, empty ones included. */
  function Split(s: string): seq<string>
    decreases |s|
  {
    var n := WordLength(s);
    if n == |s| then [s] else
      assert |TrimStart(s[n + 1..])| < |s|;
      [s[..n]] + Split(TrimStart(s[n + 1..]))
  }

  /** filter(Boolean) */
  function NonEmpty(pieces: seq<string>): seq<string> {
    if pieces == [] then []
    else if pieces[0] == "" then NonEmpty(pieces[1..])
    else [pieces[0]] + NonEmpty(pieces[1..])
  }

  function Join(words: seq<string>): string {
    if words == [] then ""
    else if |words| == 1 then words[0]
    else words[0] + " " + Join(words[1..])
  }

  function Tokens(name: string): seq<string> {
    NonEmpty(Split(Trim(name)))
  }

  /** split('@')[0] */
  function LocalPart(email: string): (local: string)
    ensures local <= email && '@' !in local
    ensures local == email || email[|local|] == '@'
  {
    if email == "" || email[0] == '@' then "" else [email[0]] + LocalPart(email[1..])
  }

  function Fallback(email: string): string {
    if LocalPart(email) == "" then "user" else LocalPart(email)
  }

  datatype Names = Names(firstName: string, lastName: string)

  function SplitPersonName(name: Option<string>, email: string): Names {
    var tokens := Tokens(if name.Some? then name.value else "");
    if |tokens| == 0 then Names(Fallback(email), Fallback(email))
    else if |tokens| == 1 then Names(tokens[0], tokens[0])
    else Names(tokens[0], Join(tokens[1..]))
  }

  // ----- normal form: no outer white space, one space for every inner run -----

  function Squeezed(s: string): string {
    if s == "" then ""
    else if !IsSpace(s[0]) then [s[0]] + Squeezed(s[1..])
    else if |s| == 1 || IsSpace(s[1]) then Squeezed(s[1..])
    else " " + Squeezed(s[1..])
  }

  function Normalised(s: string): string {
    Squeezed(TrimStart(s))
  }

  ghost predicate Words(words: seq<string>) {
    forall w | w in words :: w != "" && SpaceFree(w)
  }

  /** A word, then some white space, then `rest`. */
  lemma {:induction false} SqueezeWord(s: string)
    ensures var n := WordLength(s);
            Squeezed(s) == if n == |s| then s else s[..n] + Squeezed(s[n..])
  {
    hide IsSpace;
    if s == "" || IsSpace(s[0]) {
    } else {
      SqueezeWord(s[1..]);
      var n := WordLength(s);
      assert s[1..][n - 1..] == s[n..];
      assert s[..n] == [s[0]] + s[1..][..n - 1];
    }
  }

  lemma {:induction false} SqueezeSpaces(s: string)
    requires s != "" && IsSpace(s[0])
    ensures var rest := TrimStart(s); Squeezed(s) == if rest == "" then "" else " " + Squeezed(rest)
  {
    if |s| == 1 || !IsSpace(s[1]) {
    } else {
      SqueezeSpaces(s[1..]);
    }
  }

  lemma {:induction false} SqueezeIgnoresTrailingSpace(s: string)
    requires s != "" && IsSpace(s[|s| - 1])
    ensures Squeezed(s) == Squeezed(s[..|s| - 1])
  {
    if |s| == 1 {
    } else {
      SqueezeIgnoresTrailingSpace(s[1..]);
      assert s[..|s| - 1][1..] == s[1..][..|s| - 2];
    }
  }

  lemma {:induction false} SqueezeIgnoresTrimEnd(s: string)
    ensures Squeezed(TrimEnd(s)) == Squeezed(s)
    ensures TrimEnd(s) <= s
  {
    if s == "" || !IsSpace(s[|s| - 1]) {
    } else {
      SqueezeIgnoresTrimEnd(s[..|s| - 1]);
      SqueezeIgnoresTrailingSpace(s);
    }
  }

  /** The pieces of a string with no leading white space are its words, and joining them gives the squeezed string. */
  lemma {:induction false} SplitSqueezes(s: string)
    requires s == "" || !IsSpace(s[0])
    ensures Words(NonEmpty(Split(s)))
    ensures Join(NonEmpty(Split(s))) == Squeezed(s)
    ensures NonEmpty(Split(s)) == [] <==> s == ""
    decreases |s|
  {
    SqueezeWord(s);
    hide IsSpace;
    var n := WordLength(s);
    if n < |s| {
      var rest := TrimStart(s[n + 1..]);
      assert TrimStart(s[n..]) == rest;
      SplitSqueezes(rest);
      SqueezeSpaces(s[n..]);
      assert s[n + 1..] == s[n..][1..];
    } else {
      assert s[..n] == s;
    }
  }

  /** The tokens are words, and joined by single spaces they are the normalised name. */
  lemma TokensNormalise(s: string)
    ensures Words(Tokens(s))
    ensures Join(Tokens(s)) == Normalised(s)
  {
    SqueezeIgnoresTrimEnd(TrimStart(s));
    SplitSqueezes(Trim(s));
  }

  lemma TailWords(words: seq<string>)
    requires Words(words) && words != []
    ensures Words(words[1..]) && words[0] != "" && SpaceFree(words[0]) && !IsSpace(words[0][0])
  {
    assert words[0] in words && words[0][0] in words[0];
    assert forall w | w in words[1..] :: w in words;
  }

  predicate StartsWithWord(s: string) {
    s != "" && !IsSpace(s[0])
  }

  predicate EndsWithWord(s: string) {
    s != "" && !IsSpace(s[|s| - 1])
  }

  /** Words are recovered from their join. */
  lemma {:induction false} SplitJoin(words: seq<string>)
    requires Words(words)
    ensures IsRecovered(words)
  {
    hide IsRecovered;
    if words == [] {
      NothingIsRecovered();
    } else {
      TailWords(words);
      assert words == [words[0]] + words[1..];
      SplitJoin(words[1..]);
      OneMoreIsRecovered(words[0], words[1..]);
    }
  }

  predicate IsRecovered(words: seq<string>) {
    && NonEmpty(Split(Join(words))) == words
    && (words != [] ==> StartsWithWord(Join(words)) && EndsWithWord(Join(words)))
  }

  lemma NothingIsRecovered()
    ensures IsRecovered([])
  {
  }

  lemma OneMoreIsRecovered(word: string, words: seq<string>)
    requires SpaceFree(word) && word != "" && IsRecovered(words)
    ensures IsRecovered([word] + words)
  {
    hide IsSpace, SpaceFree;
    assert ([word] + words)[1..] == words;
    if words == [] {
      assert [word] + words == [word];
      SplitOneWord(word);
    } else {
      var rest := Join(words);
      SplitOffWord(word, rest);
      assert Join([word] + words) == word + " " + rest;
      assert ([word] + Split(rest))[1..] == Split(rest);
    }
  }

  lemma SplitOneWord(word: string)
    requires SpaceFree(word) && word != ""
    ensures Split(word) == [word] && NonEmpty([word]) == [word]
    ensures StartsWithWord(word) && EndsWithWord(word)
  {
    hide IsSpace;
    WordLengthIs(word, "");
    assert word[0] in word && word[|word| - 1] in word;
  }

  lemma SplitOffWord(word: string, rest: string)
    requires SpaceFree(word) && word != "" && StartsWithWord(rest)
    ensures Split(word + " " + rest) == [word] + Split(rest)
    ensures StartsWithWord(word + " " + rest)
    ensures (word + " " + rest)[|word + " " + rest| - 1] == rest[|rest| - 1]
  {
    assert IsSpace(' ');
    hide IsSpace;
    var n, s := |word|, word + " " + rest;
    assert s == word + (" " + rest) && s[0] == word[0] && word[0] in word;
    WordLengthIs(word, " " + rest);
    assert s[..n] == word && s[n + 1..] == rest;
    assert TrimStart(rest) == rest;
  }

  lemma {:induction false} WordLengthIs(word: string, rest: string)
    requires SpaceFree(word) && (rest == "" || IsSpace(rest[0]))
    ensures WordLength(word + rest) == |word| && (rest == "" ==> word + rest == word)
  {
    if word != "" {
      assert (word + rest)[1..] == word[1..] + rest;
      WordLengthIs(word[1..], rest);
    } else {
      assert word + rest == rest;
    }
  }

  /** Tokenising a join of words gives the words back. */
  lemma TokensOfJoin(words: seq<string>)
    requires Words(words)
    ensures Tokens(Join(words)) == words
  {
    hide IsSpace;
    SplitJoin(words);
  }

  /** Normalising is idempotent and keeps the tokens. */
  lemma NormalisedKeepsTokens(s: string)
    ensures Tokens(Normalised(s)) == Tokens(s) && Normalised(Normalised(s)) == Normalised(s)
  {
    TokensNormalise(s);
    TokensOfJoin(Tokens(s));
    TokensNormalise(Normalised(s));
  }

  lemma {:induction false} BlankHasNoTokens(s: string)
    ensures Tokens(s) == [] <==> Blank(s)
    ensures SpaceFree(s) && s != "" ==> Tokens(s) == [s]
  {
    TokensNormalise(s);
    SqueezeBlank(s);
    if SpaceFree(s) && s != "" {
      assert Join([s]) == s;
      TokensOfJoin([s]);
    }
  }

  lemma {:induction false} SqueezeBlank(s: string)
    ensures Normalised(s) == "" <==> Blank(s)
  {
    if s == "" || !IsSpace(s[0]) {
    } else {
      SqueezeBlank(s[1..]);
      assert s == [s[0]] + s[1..];
    }
  }

  // ----- the same operations, said of characters -----

  /** The code points that count as white space. */
  lemma IsSpaceExactly(c: char)
    ensures IsSpace(c) <==>
      || 9 <= c as int <= 13 || c as int in {0x20, 0xA0, 0x1680, 0x2028, 0x2029, 0x202F, 0x205F, 0x3000, 0xFEFF}
      || 0x2000 <= c as int <= 0x200A
  {
  }

  lemma {:induction false} TrimStartExactly(s: string)
    ensures |TrimStart(s)| <= |s| && TrimStart(s) == s[|s| - |TrimStart(s)|..] && Blank(s[..|s| - |TrimStart(s)|])
  {
    hide IsSpace;
    if s == "" || !IsSpace(s[0]) {
    } else {
      TrimStartExactly(s[1..]);
      var n := |s| - |TrimStart(s)|;
      assert s[..n] == [s[0]] + s[1..][..n - 1] && s[n..] == s[1..][n - 1..];
    }
  }

  lemma {:induction false} TrimEndExactly(s: string)
    ensures TrimEnd(s) <= s && Blank(s[|TrimEnd(s)|..])
    ensures TrimEnd(s) == "" || !IsSpace(TrimEnd(s)[|TrimEnd(s)| - 1])
  {
    hide IsSpace;
    if s == "" || !IsSpace(s[|s| - 1]) {
    } else {
      var init := s[..|s| - 1];
      TrimEndExactly(init);
      assert s[|TrimEnd(s)|..] == init[|TrimEnd(s)|..] + [s[|s| - 1]];
    }
  }

  /** Trimming takes white space off both ends and nothing else, and leaves none there. */
  lemma TrimExactly(s: string) returns (before: string, after: string)
    ensures s == before + Trim(s) + after && Blank(before) && Blank(after)
    ensures Trim(s) != "" ==> !IsSpace(Trim(s)[0]) && !IsSpace(Trim(s)[|Trim(s)| - 1])
  {
    TrimStartExactly(s);
    TrimEndExactly(TrimStart(s));
    hide IsSpace;
    before, after := s[..|s| - |TrimStart(s)|], TrimStart(s)[|Trim(s)|..];
  }

  lemma {:induction false} BlankIsDropped(before: string, rest: string)
    requires Blank(before)
    ensures TrimStart(before + rest) == TrimStart(rest)
  {
    hide IsSpace;
    if before == "" {
      assert before + rest == rest;
    } else {
      assert (before + rest)[1..] == before[1..] + rest;
      BlankIsDropped(before[1..], rest);
    }
  }

  /**
   What the normalised name is: white space before a word is dropped, and
   between it and the next one it becomes one space.
   */
  lemma NormalisedByWords(before: string, word: string, rest: string)
    requires Blank(before) && SpaceFree(word) && (rest == "" || IsSpace(rest[0]))
    ensures Normalised(before) == ""
    ensures word != "" ==>
              Normalised(before + word + rest) == word + if Blank(rest) then "" else " " + Normalised(rest)
  {
    SqueezeBlank(before);
    SqueezeBlank(rest);
    hide IsSpace;
    if word != "" {
      assert word[0] in word && before + word + rest == before + (word + rest);
      BlankIsDropped(before, word + rest);
      WordLengthIs(word, rest);
      SqueezeWord(word + rest);
      assert (word + rest)[..|word|] == word && (word + rest)[|word|..] == rest;
      if rest != "" { SqueezeSpaces(rest); }
    }
  }

  /** Without a name, both names are the part of the address before the first '@', or "user" if there is none. */
  lemma NamelessExactly(name: Option<string>, email: string)
    requires name == None || Blank(name.value)
    ensures var names := SplitPersonName(name, email);
      && names.firstName == names.lastName
      && (email != "" && email[0] != '@' ==>
            && names.firstName <= email && names.firstName != "" && '@' !in names.firstName
            && (names.firstName == email || email[|names.firstName|] == '@'))
      && (email == "" || email[0] == '@' ==> names.firstName == "user")
  {
    hide IsSpace;
    NamesByWords(name, email);
  }

  // ----- what the split promises -----

  function Given(name: Option<string>): string {
    if name.Some? then name.value else ""
  }

  /** The names, by the number of words in the name: none, one, or more. */
  lemma NamesByWords(name: Option<string>, email: string)
    ensures var names, whole := SplitPersonName(name, email), Normalised(Given(name));
            && (Blank(Given(name)) ==> names == Names(Fallback(email), Fallback(email)))
            && (!Blank(Given(name))
                ==> SpaceFree(names.firstName) && StartsWithWord(names.firstName) && StartsWithWord(names.lastName))
            && (!Blank(Given(name)) && SpaceFree(whole) ==> names == Names(whole, whole))
            && (!Blank(Given(name)) && !SpaceFree(whole) ==> names.firstName + " " + names.lastName == whole)
  {
    assert IsSpace(' ');
    hide IsSpace;
    var tokens := Tokens(Given(name));
    TokensNormalise(Given(name));
    BlankHasNoTokens(Given(name));
    if tokens != [] {
      TailWords(tokens);
      if |tokens| > 1 {
        SplitJoin(tokens[1..]);
        assert Join(tokens)[|tokens[0]|] == ' ';
      }
    }
  }

  /** Neither name is ever empty. */
  lemma NeverEmpty(name: Option<string>, email: string)
    ensures SplitPersonName(name, email).firstName != "" && SplitPersonName(name, email).lastName != ""
  {
    hide IsSpace;
    NamesByWords(name, email);
  }

  /** Nor blank, except when the name is blank and so is a local part that is there. */
  lemma BlankExactly(name: Option<string>, email: string)
    ensures var names := SplitPersonName(name, email);
            (Blank(names.firstName) || Blank(names.lastName)) <==>
            Blank(Given(name)) && Blank(LocalPart(email)) && LocalPart(email) != ""
  {
    assert !IsSpace("user"[0]) && "user"[0] in "user";
    hide IsSpace;
    NamesByWords(name, email);
  }

  /** No name, and an address whose local part is one space: both names are that space. */
  lemma BlankNamesOccur()
    ensures SplitPersonName(None, " @x") == Names(" ", " ") && Blank(" ")
  {
    assert LocalPart(" @x") == " " by { assert " @x"[1..] == "@x"; }
    BlankHasNoTokens("");
  }

  /**
   Of a name of two words or more, the two names put together are the
   normalised name; of one word, both are that word.
   */
  lemma NothingIsLost(name: Option<string>, email: string)
    requires !Blank(Given(name))
    ensures var names, whole := SplitPersonName(name, email), Normalised(Given(name));
            && SpaceFree(names.firstName)
            && (SpaceFree(whole) ==> names == Names(whole, whole))
            && (!SpaceFree(whole) ==> names.firstName + " " + names.lastName == whole)
  {
    NamesByWords(name, email);
  }

  /**
   Putting the two names together and splitting again gives them back, unless
   they are an email's local part with white space beside other characters.
   */
  lemma SplitAgainExactly(name: Option<string>, email: string)
    ensures var names := SplitPersonName(name, email);
            SplitPersonName(Some(names.firstName + " " + names.lastName), email) == names <==>
            !Blank(Given(name)) || SpaceFree(LocalPart(email)) || Blank(LocalPart(email))
  {
    BlankHasNoTokens(Given(name));
    if Blank(Given(name)) {
      FallbackAgain(email);
    } else {
      NameAgain(name, email);
    }
  }

  lemma NameAgain(name: Option<string>, email: string)
    requires Tokens(Given(name)) != []
    ensures var names := SplitPersonName(name, email);
            SplitPersonName(Some(names.firstName + " " + names.lastName), email) == names
  {
    hide IsSpace;
    var tokens := Tokens(Given(name));
    TokensNormalise(Given(name));
    var words := if |tokens| == 1 then tokens + tokens else tokens;
    assert words[1..] == if |tokens| == 1 then tokens else tokens[1..];
    assert Join(words) == words[0] + " " + Join(words[1..]);
    TokensOfJoin(words);
  }

  lemma FallbackAgain(email: string)
    ensures var f := Fallback(email);
            SplitPersonName(Some(f + " " + f), email) == Names(f, f) <==>
            SpaceFree(LocalPart(email)) || Blank(LocalPart(email))
  {
    assert IsSpace(' ') && SpaceFree("user");
    hide IsSpace;
    var f := Fallback(email);
    var both := f + " " + f;
    if SpaceFree(f) {
      assert Join([f, f]) == both;
      TokensOfJoin([f, f]);
    } else {
      assert forall c | c in f :: c in both;
      BlankHasNoTokens(both);
      NamesByWords(Some(both), email);
    }
  }
}
