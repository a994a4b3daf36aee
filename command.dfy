/**
 * The text of a `/start` command and the referral argument read from it.
 *
 * The handler splits the message text the way Python's `str.split()` does with
 * no separator (runs of whitespace separate, no empty tokens) and takes the
 * second token as the referrer's id when it consists of decimal digits only.
 * The referral link a user shares carries their own id printed with `str`, so
 * the round trip from an id to a link and back is part of this module.
 */
module Command {
  import opened Wrappers

  /** The characters Python's `str.split()` treats as whitespace (those for which `str.isspace` holds). */
  predicate IsSpace(c: char) {
    var n := c as int;
    || (0x09 <= n <= 0x0D)
    || (0x1C <= n <= 0x20)
    || n == 0x85 || n == 0xA0 || n == 0x1680
    || (0x2000 <= n <= 0x200A)
    || n == 0x2028 || n == 0x2029 || n == 0x202F || n == 0x205F || n == 0x3000
  }

  predicate IsDigit(c: char) {
    '0' <= c <= '9'
  }

  /** No character of `s` is whitespace. */
  predicate NoSpace(s: string) {
    forall i :: 0 <= i < |s| ==> !IsSpace(s[i])
  }

  /** A token `split()` can produce: non-empty and free of whitespace. */
  predicate IsWord(w: string) {
    w != [] && NoSpace(w)
  }

  /** Python's `str.isdigit()`, restricted to ASCII digits: non-empty and all digits. */
  predicate IsDigits(s: string) {
    s != [] && forall i :: 0 <= i < |s| ==> IsDigit(s[i])
  }

  /** `s` without its leading whitespace. */
  function SkipSpace(s: string): (r: string)
    ensures |r| <= |s|
    ensures r == [] || !IsSpace(r[0])
  {
    if s != [] && IsSpace(s[0]) then SkipSpace(s[1..]) else s
  }

  /** The length of the longest whitespace-free prefix of `s`. */
  function WordLength(s: string): (n: nat)
    ensures n <= |s|
    ensures NoSpace(s[..n])
  {
    if s == [] || IsSpace(s[0]) then 0 else 1 + WordLength(s[1..])
  }

  /** `s.split()`: the maximal whitespace-free runs of `s`, in order. */
  function Split(s: string): (words: seq<string>)
    ensures forall i :: 0 <= i < |words| ==> IsWord(words[i])
    decreases |s|
  {
    var t := SkipSpace(s);
    if t == [] then []
    else
      var n := WordLength(t);
      [t[..n]] + Split(t[n..])
  }

  /** The whitespace runs `s.split()` drops: before the first token, between tokens and after the last. */
  function Separators(s: string): (seps: seq<string>)
    ensures |seps| == |Split(s)| + 1
    decreases |s|
  {
    var t := SkipSpace(s);
    var lead := s[..|s| - |t|];
    if t == [] then [lead] else [lead] + Separators(t[WordLength(t)..])
  }

  /** Every character of `s` is whitespace; `s` may be empty. */
  predicate IsSpaces(s: string) {
    forall i :: 0 <= i < |s| ==> IsSpace(s[i])
  }

  /**
   * `seps[0] + words[0] + seps[1] + ... + words[n-1] + seps[n]`: a text laid
   * out as words with a separator before, between and after them.
   */
  function Interleave(seps: seq<string>, words: seq<string>): string
    requires |seps| == |words| + 1
    decreases |words|
  {
    if words == [] then seps[0] else seps[0] + words[0] + Interleave(seps[1..], words[1..])
  }

  /**
   * `seps` and `words` lay out a text the way `str.split()` reads it: the
   * words are whitespace-free and non-empty, the separators are whitespace,
   * and every separator between two words is non-empty; the first and the
   * last separator may be empty.
   */
  predicate Tokenization(seps: seq<string>, words: seq<string>) {
    && |seps| == |words| + 1
    && (forall i :: 0 <= i < |words| ==> IsWord(words[i]))
    && (forall i :: 0 <= i < |seps| ==> IsSpaces(seps[i]))
    && (forall i :: 0 < i < |words| ==> seps[i] != [])
  }

  /** The value of one decimal digit. */
  function DigitValue(c: char): (d: nat)
    requires IsDigit(c)
    ensures d < 10
  {
    (c as int) - ('0' as int)
  }

  /** The character of one decimal digit. */
  function DigitChar(d: nat): (c: char)
    requires d < 10
    ensures IsDigit(c) && DigitValue(c) == d
  {
    (('0' as int) + d) as char
  }

  /** Python's `int(s)` on a string of decimal digits (leading zeros allowed). */
  function DecimalValue(s: string): nat
    requires forall i :: 0 <= i < |s| ==> IsDigit(s[i])
  {
    if s == [] then 0 else 10 * DecimalValue(s[..|s| - 1]) + DigitValue(s[|s| - 1])
  }

  /** Python's `str(n)` for a non-negative integer. */
  function DecimalString(n: nat): (s: string)
    ensures IsDigits(s)
  {
    if n < 10 then [DigitChar(n)] else DecimalString(n / 10) + [DigitChar(n % 10)]
  }

  /** Python's `str(u)` for any integer: a minus sign before the digits of a negative one. */
  function IdString(u: int): (s: string)
    ensures IsWord(s)
    ensures IsDigits(s) <==> u >= 0
  {
    if u < 0 then
      var s := "-" + DecimalString(-u);
      assert s[0] == '-' && !IsDigit(s[0]);
      s
    else DecimalString(u)
  }

  /**
   * The referrer id a `/start` command carries: the second token of the
   * split text read as a decimal number, when there is one and it is all
   * digits; no referrer otherwise.
   */
  function ReferrerArg(text: string): Option<int> {
    var args := Split(text);
    if |args| > 1 && IsDigits(args[1]) then Some(DecimalValue(args[1])) else None
  }

  /** The text Telegram delivers when someone opens `https://t.me/<bot>?start=<payload>`. */
  function StartText(payload: string): string {
    "/start " + payload
  }

  // ---------------------------------------------------------------------------
  // Lemmas
  // ---------------------------------------------------------------------------

  /** `SkipSpace` drops a prefix of whitespace and keeps the rest. */
  lemma {:induction false} SkipSpaceSuffix(s: string)
    ensures var t := SkipSpace(s); t == s[|s| - |t|..] && IsSpaces(s[..|s| - |t|])
    decreases |s|
  {
    if s != [] && IsSpace(s[0]) {
      SkipSpaceSuffix(s[1..]);
      var t := SkipSpace(s);
      assert s[1..][|s| - 1 - |t|..] == s[|s| - |t|..];
      assert s[..|s| - |t|] == [s[0]] + s[1..][..|s| - 1 - |t|];
    } else {
      assert s[..0] == [];
    }
  }

  /** Whitespace in front of a text is skipped. */
  lemma {:induction false} SkipSpaceAfterSpaces(p: string, x: string)
    requires IsSpaces(p)
    ensures SkipSpace(p + x) == SkipSpace(x)
    decreases |p|
  {
    if p == [] {
      assert p + x == x;
    } else {
      assert (p + x)[1..] == p[1..] + x;
      SkipSpaceAfterSpaces(p[1..], x);
    }
  }

  /** The whitespace-free prefix of `s` stops at a whitespace character or at the end. */
  lemma {:induction false} WordLengthStops(s: string)
    ensures WordLength(s) < |s| ==> IsSpace(s[WordLength(s)])
    decreases |s|
  {
    if s != [] && !IsSpace(s[0]) {
      WordLengthStops(s[1..]);
    }
  }

  /** The whitespace-free prefix of `w + tail` is exactly `w` when `tail` is empty or starts a separator. */
  lemma {:induction false} WordLengthOfWord(w: string, tail: string)
    requires NoSpace(w)
    requires tail == [] || IsSpace(tail[0])
    ensures WordLength(w + tail) == |w|
  {
    if w != [] {
      assert (w + tail)[1..] == w[1..] + tail;
      WordLengthOfWord(w[1..], tail);
    } else {
      assert w + tail == tail;
    }
  }

  /** A word followed by nothing or by a separator is the first token. */
  lemma SplitWordThen(w: string, tail: string)
    requires IsWord(w)
    requires tail == [] || IsSpace(tail[0])
    ensures Split(w + tail) == [w] + Split(tail)
  {
    var s := w + tail;
    assert s[0] == w[0];
    assert SkipSpace(s) == s;
    WordLengthOfWord(w, tail);
    assert s[..|w|] == w;
    assert s[|w|..] == tail;
  }

  /** Leading whitespace produces no token. */
  lemma SplitAfterSpaces(p: string, x: string)
    requires IsSpaces(p)
    ensures Split(p + x) == Split(x)
  {
    SkipSpaceAfterSpaces(p, x);
  }

  /** Laying out one more word with its separator in front. */
  lemma InterleaveCons(sep: string, w: string, seps: seq<string>, words: seq<string>)
    requires |seps| == |words| + 1
    ensures Interleave([sep] + seps, [w] + words) == sep + (w + Interleave(seps, words))
  {
    assert ([sep] + seps)[1..] == seps;
    assert ([w] + words)[1..] == words;
  }

  /** A laid-out text is empty or starts with whitespace when its first separator is non-empty or it has no word. */
  lemma InterleaveStartsWithSpace(seps: seq<string>, words: seq<string>)
    requires |seps| == |words| + 1 && IsSpaces(seps[0])
    requires words != [] ==> seps[0] != []
    ensures var x := Interleave(seps, words); x == [] || IsSpace(x[0])
  {
    if words != [] {
      var r := words[0] + Interleave(seps[1..], words[1..]);
      var sep := seps[0];
      assert Interleave(seps, words) == sep + r;
      assert (sep + r)[0] == sep[0];
    }
  }

  /** Dropping the first word and separator of a tokenization leaves a tokenization. */
  lemma TokenizationTail(seps: seq<string>, words: seq<string>)
    requires Tokenization(seps, words) && words != []
    ensures Tokenization(seps[1..], words[1..])
    ensures IsSpaces(seps[1]) && (words[1..] != [] ==> seps[1] != [])
  {
    forall i | 0 < i < |words| - 1 ensures seps[1..][i] != [] {
      assert seps[1..][i] == seps[i + 1];
    }
  }

  /**
   * Runs of whitespace of any length separate, and whitespace before the
   * first or after the last word makes no token: splitting a text laid out
   * as `words` between whitespace separators gives back exactly `words`.
   */
  lemma {:induction false} SplitInterleave(seps: seq<string>, words: seq<string>)
    requires Tokenization(seps, words)
    ensures Split(Interleave(seps, words)) == words
    decreases |words|
  {
    if words == [] {
      SplitAfterSpaces(seps[0], "");
      assert seps[0] + "" == seps[0];
      assert Split("") == [];
    } else {
      var rest := Interleave(seps[1..], words[1..]);
      TokenizationTail(seps, words);
      SplitInterleave(seps[1..], words[1..]);
      InterleaveStartsWithSpace(seps[1..], words[1..]);
      SplitWordThen(words[0], rest);
      assert Interleave(seps, words) == seps[0] + (words[0] + rest);
      SplitAfterSpaces(seps[0], words[0] + rest);
      assert [words[0]] + words[1..] == words;
    }
  }

  /** A text whose first character is whitespace has a non-empty first separator. */
  lemma LeadingSeparator(s: string)
    requires s != [] && IsSpace(s[0])
    ensures Separators(s)[0] != []
  {
    assert SkipSpace(s) == SkipSpace(s[1..]);
  }

  /** A word and a whitespace run in front of a tokenization make a tokenization. */
  lemma TokenizationCons(sep: string, w: string, seps: seq<string>, words: seq<string>)
    requires IsSpaces(sep) && IsWord(w) && Tokenization(seps, words)
    requires words != [] ==> seps[0] != []
    ensures Tokenization([sep] + seps, [w] + words)
  {
    var seps' := [sep] + seps;
    var words' := [w] + words;
    forall i | 0 < i < |words'| ensures seps'[i] != [] {
      assert seps'[i] == seps[i - 1];
    }
    forall i | 0 <= i < |seps'| ensures IsSpaces(seps'[i]) {
      if i > 0 {
        assert seps'[i] == seps[i - 1];
      }
    }
    forall i | 0 <= i < |words'| ensures IsWord(words'[i]) {
      if i > 0 {
        assert words'[i] == words[i - 1];
      }
    }
  }

  /** One step of `Split` and `Separators`: the leading whitespace, the first token, and the rest. */
  lemma SplitStep(s: string)
    requires SkipSpace(s) != []
    ensures var t := SkipSpace(s); var n := WordLength(t);
            && Separators(s) == [s[..|s| - |t|]] + Separators(t[n..])
            && Split(s) == [t[..n]] + Split(t[n..])
  {
  }

  /** A text that starts with a non-space character starts with a token followed by nothing or whitespace. */
  lemma FirstWord(t: string)
    requires t != [] && !IsSpace(t[0])
    ensures var n := WordLength(t);
            && IsWord(t[..n])
            && (t[n..] == [] || IsSpace(t[n..][0]))
            && t[..n] + t[n..] == t
  {
    var n := WordLength(t);
    WordLengthStops(t);
    assert n > 0;
    if n < |t| {
      assert t[n..][0] == t[n];
    }
  }

  /** How `s` falls apart at its first token, for `s` that has one. */
  lemma SplitParts(s: string, t: string, n: nat)
    requires t == SkipSpace(s) && t != [] && n == WordLength(t)
    ensures s == s[..|s| - |t|] + (t[..n] + t[n..])
    ensures IsSpaces(s[..|s| - |t|]) && IsWord(t[..n])
    ensures t[n..] == [] || IsSpace(t[n..][0])
  {
    SkipSpaceSuffix(s);
    FirstWord(t);
    assert s[..|s| - |t|] + s[|s| - |t|..] == s;
  }

  /** The tokenization of `lead + (w + tail)` from that of `tail`, given how the split steps. */
  lemma TokenizationOfCons(s: string, lead: string, w: string, tail: string)
    requires s == lead + (w + tail) && IsSpaces(lead) && IsWord(w)
    requires Separators(s) == [lead] + Separators(tail) && Split(s) == [w] + Split(tail)
    requires Split(tail) != [] ==> Separators(tail)[0] != []
    requires Tokenization(Separators(tail), Split(tail)) && Interleave(Separators(tail), Split(tail)) == tail
    ensures Tokenization(Separators(s), Split(s))
    ensures Interleave(Separators(s), Split(s)) == s
  {
    TokenizationCons(lead, w, Separators(tail), Split(tail));
    InterleaveCons(lead, w, Separators(tail), Split(tail));
  }

  /** A text of whitespace only is its own single separator. */
  lemma SplitTokenizesBlank(s: string)
    requires SkipSpace(s) == []
    ensures Tokenization(Separators(s), Split(s))
    ensures Interleave(Separators(s), Split(s)) == s
  {
    SkipSpaceSuffix(s);
    assert s[..|s|] == s;
  }

  /** The tokenization of a text follows from that of what is left after its first token. */
  lemma SplitTokenizesCons(s: string)
    requires SkipSpace(s) != []
    requires var t := SkipSpace(s); var tail := t[WordLength(t)..];
             Tokenization(Separators(tail), Split(tail)) && Interleave(Separators(tail), Split(tail)) == tail
    ensures Tokenization(Separators(s), Split(s))
    ensures Interleave(Separators(s), Split(s)) == s
  {
    var t := SkipSpace(s);
    var n := WordLength(t);
    var tail := t[n..];
    SplitStep(s);
    SplitParts(s, t, n);
    if Split(tail) != [] {
      LeadingSeparator(tail);
    }
    TokenizationOfCons(s, s[..|s| - |t|], t[..n], tail);
  }

  /**
   * The tokens of `s.split()`, with the whitespace it drops between them,
   * lay out `s` again: every text is the tokenization of its split.
   */
  lemma {:induction false} SplitTokenizes(s: string)
    ensures Tokenization(Separators(s), Split(s))
    ensures Interleave(Separators(s), Split(s)) == s
    decreases |s|
  {
    var t := SkipSpace(s);
    if t == [] {
      SplitTokenizesBlank(s);
    } else {
      SplitTokenizes(t[WordLength(t)..]);
      SplitTokenizesCons(s);
    }
  }

  /** `int(str(n)) == n`. */
  lemma {:induction false} DecimalRoundTrip(n: nat)
    ensures DecimalValue(DecimalString(n)) == n
  {
    var s := DecimalString(n);
    if n < 10 {
      assert s[..|s| - 1] == [];
    } else {
      assert s[..|s| - 1] == DecimalString(n / 10);
      DecimalRoundTrip(n / 10);
    }
  }

  lemma StartIsWord()
    ensures IsWord("/start")
  {
  }

  /**
   * What the handler reads from a command `cmd arg extra...`, whatever
   * whitespace surrounds and separates the tokens: the referrer is `arg`
   * read as a number exactly when `arg` is all digits, and further tokens
   * are ignored.
   */
  lemma StartArgument(seps: seq<string>, cmd: string, arg: string, extra: seq<string>)
    requires Tokenization(seps, [cmd, arg] + extra)
    ensures ReferrerArg(Interleave(seps, [cmd, arg] + extra))
            == if IsDigits(arg) then Some(DecimalValue(arg)) else None
  {
    SplitInterleave(seps, [cmd, arg] + extra);
  }

  /** A text of fewer than two tokens, a lone command or only whitespace, names no referrer. */
  lemma FewTokensNoReferrer(seps: seq<string>, words: seq<string>)
    requires Tokenization(seps, words) && |words| < 2
    ensures ReferrerArg(Interleave(seps, words)) == None
  {
    SplitInterleave(seps, words);
  }

  /** A bare `/start` names no referrer. */
  lemma PlainStartHasNoReferrer()
    ensures ReferrerArg("/start") == None
  {
    StartIsWord();
    assert Interleave(["", ""], ["/start"]) == "/start";
    FewTokensNoReferrer(["", ""], ["/start"]);
  }

  /**
   * The referral link of user `u` (`?start={user_id}`) brings back `u` as the
   * referrer when `u` is non-negative; a negative id prints with a minus sign,
   * which `isdigit` rejects.
   */
  lemma ReferralLinkRoundTrip(u: int)
    ensures ReferrerArg(StartText(IdString(u))) == if u >= 0 then Some(u) else None
  {
    var id := IdString(u);
    var seps := ["", " ", ""];
    StartIsWord();
    assert Interleave(seps[2..], []) == "";
    assert Interleave(seps[1..], [id]) == " " + id;
    assert Interleave(seps, ["/start", id] + []) == StartText(id);
    StartArgument(seps, "/start", id, []);
    if u >= 0 {
      DecimalRoundTrip(u);
    }
  }
}
