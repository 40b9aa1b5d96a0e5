/**
  The texts of the errors `sign_auto_approval` returns, each quoting a path, and the test on words that
  `signer_unavailable` makes on them: src/approval_policy.rs.
 */
module ApprovalTexts {

  predicate HasAt(text: string, word: string, k: int) {
    0 <= k && k + |word| <= |text| && forall j :: 0 <= j < |word| ==> text[k + j] == word[j]
  }

  /** `contains` of a text. */
  predicate Contains(text: string, word: string) {
    exists k :: 0 <= k <= |text| && HasAt(text, word, k)
  }

  /** The last `u` characters of `text` are the first `u` of the word. */
  ghost predicate EndBegins(text: string, word: string, u: nat) {
    u <= |text| && u <= |word| && forall j :: 0 <= j < u ==> text[|text| - u + j] == word[j]
  }

  /** The first `u` characters of `text` are the last `u` of the word. */
  ghost predicate StartEnds(text: string, word: string, u: nat) {
    u <= |text| && u <= |word| && forall j :: 0 <= j < u ==> text[j] == word[|word| - u + j]
  }

  /** The text before a path neither holds the word nor begins it. */
  ghost predicate ClearBefore(before: string, word: string) {
    !Contains(before, word) && forall u :: 0 < u < |word| ==> !EndBegins(before, word, u)
  }

  /** The text after a path neither holds the word nor ends it. */
  ghost predicate ClearAfter(after: string, word: string) {
    !Contains(after, word) && forall u :: 0 < u < |word| ==> !StartEnds(after, word, u)
  }

  /** Such a text says the word exactly when the path it quotes does. */
  lemma AroundPath(before: string, path: string, after: string, word: string)
    requires word != [] && ClearBefore(before, word) && ClearAfter(after, word)
    ensures Contains(before + path + after, word) <==> Contains(path, word)
  {
    var text := before + path + after;
    if Contains(path, word) {
      var k :| 0 <= k <= |path| && HasAt(path, word, k);
      assert HasAt(text, word, |before| + k);
    }
    if Contains(text, word) {
      var k :| 0 <= k <= |text| && HasAt(text, word, k);
      Within(before, path + after, word, k, text);
      WithinEnd(before + path, after, word, k, text);
      assert HasAt(path, word, k - |before|);
    }
  }

  lemma Within(before: string, rest: string, word: string, k: int, text: string)
    requires word != [] && text == before + rest && HasAt(text, word, k)
    ensures || k >= |before| || Contains(before, word)
            || (0 < |before| - k < |word| && EndBegins(before, word, |before| - k))
  {
    if k < |before| && k + |word| <= |before| {
      assert HasAt(before, word, k);
    }
  }

  lemma WithinEnd(rest: string, after: string, word: string, k: int, text: string)
    requires word != [] && text == rest + after && HasAt(text, word, k)
    ensures || k + |word| <= |rest| || Contains(after, word)
            || (0 < k + |word| - |rest| < |word| && StartEnds(after, word, k + |word| - |rest|))
  {
    var e := |rest|;
    if k >= e {
      forall j | 0 <= j < |word|
        ensures after[k - e + j] == word[j]
      {
        assert text[k + j] == word[j];
      }
      assert HasAt(after, word, k - e);
    } else if k + |word| > e {
      var u := k + |word| - e;
      forall j | 0 <= j < u
        ensures after[j] == word[|word| - u + j]
      {
        assert text[k + (|word| - u + j)] == word[|word| - u + j];
      }
    }
  }

  // ----- Reading words off fixed texts -----

  /** A text in which one pair of neighbours of the word never occurs does not hold it. */
  lemma Lacks(text: string, word: string, j: nat)
    requires j + 1 < |word|
    requires forall i :: 0 <= i < |text| - 1 && text[i] == word[j] ==> text[i + 1] != word[j + 1]
    ensures !Contains(text, word)
  {
    forall k | 0 <= k <= |text|
      ensures !HasAt(text, word, k)
    {
      if k + |word| <= |text| {
        assert text[k + j] != word[j] || text[k + (j + 1)] != word[j + 1];
      }
    }
  }

  /**
    A text that ends in a blank can only begin a word up to that word's blank, at `s`; it does not
    if they differ at `m`.
   */
  lemma EndsInBlank(before: string, word: string, s: nat, m: nat)
    requires before != [] && before[|before| - 1] == ' '
    requires forall j :: 0 <= j < |word| && word[j] == ' ' ==> j == s
    requires m <= s < |word| && s < |before| ==> before[|before| - s - 1 + m] != word[m]
    requires s < |word| ==> m <= s
    ensures forall u :: 0 < u < |word| ==> !EndBegins(before, word, u)
  {
    forall u | 0 < u < |word|
      ensures !EndBegins(before, word, u)
    {
      if u <= |before| {
        var at := if u == s + 1 then m else u - 1;
        assert before[|before| - u + at] != word[at];
      }
    }
  }

  /** A text whose first two characters are not neighbours in a word does not end it. */
  lemma StartsApart(after: string, word: string)
    requires |after| > 1 && |word| > 1 && after[0] != word[|word| - 1]
    requires forall j :: 0 <= j < |word| - 1 && word[j] == after[0] ==> word[j + 1] != after[1]
    ensures forall u :: 0 < u < |word| ==> !StartEnds(after, word, u)
  {
    forall u | 0 < u < |word|
      ensures !StartEnds(after, word, u)
    {
      if u <= |after| {
        assert after[0] != word[|word| - u + 0] || (u > 1 && after[1] != word[|word| - u + 1]);
      }
    }
  }

  const SIGNER_KEY := "signer key"
  const MISSING := "missing"
  const NOT_FOUND := "not found"

  /** The test of `signer_unavailable`. */
  predicate SignerUnavailable(text: string) {
    Contains(text, SIGNER_KEY) && (Contains(text, NOT_FOUND) || Contains(text, MISSING))
  }

  // ----- The texts -----

  type Digits = text: string | forall i :: 0 <= i < |text| ==> '0' <= text[i] <= '9'

  /** What is wrong with the file a signer key path names. */
  datatype SeedFault =
    | Missing | Uninspectable | SymbolicLink | NotAFile | Mode(octal: Digits) | Size(bytes: Digits) | Unreadable

  function SeedText(fault: SeedFault, path: string): (text: string) {
    match fault
    case Missing => KEY + path + " is missing"
    case Uninspectable => INSPECTING + KEY + path + ""
    case SymbolicLink => KEY + path + NO_LINK
    case NotAFile => KEY + path + REGULAR
    case Mode(octal) => KEY + path + (MODE + octal)
    case Size(bytes) => KEY + path + (SIZE + (bytes + ")"))
    case Unreadable => READING + KEY + path + ""
  }

  const KEY := "signer key "
  const INSPECTING := "inspecting "
  const READING := "reading "
  const NO_LINK := " must not be a symlink"
  const REGULAR := " must be a regular file"
  const MODE := " must be mode 0600 (or owner-only); found "
  const SIZE := " must be exactly 32 bytes (got "

  /** How writing an envelope goes. An open or write that fails may have torn the file already. */
  datatype Write = Written | NoParent | ThroughLink | NotRegular | Unwritable(torn: bool)

  const CREATING := "creating parent for "
  const REFUSING := "refusing to write "
  const LINK := REFUSING + "through symlink "
  const LINK_END := " (remove it " + "or choose another path)"
  const IRREGULAR := ": not a regular file"
  const WRITING := "writing "

  function WriteText(write: Write, path: string): (text: string) {
    match write
    case Written => ""
    case NoParent => CREATING + path + ""
    case ThroughLink => LINK + path + LINK_END
    case NotRegular => REFUSING + path + IRREGULAR
    case Unwritable(_) => WRITING + path + ""
  }

  const NO_SIGNER_KEY := "auto plan approval policy requires auto_signer_key"
  const OVERFLOWED := "plan approval policy ttl_ms overflowed expiry"

  // ----- What they say -----

  /** No two neighbours are `x` and `y`. */
  ghost predicate NoPair(text: string, x: char, y: char) {
    forall i :: 0 <= i < |text| - 1 && text[i] == x ==> text[i + 1] != y
  }

  /** Pairs of neighbours that only the three words hold. */
  ghost predicate Plain(text: string) {
    NoPair(text, 'k', 'e') && NoPair(text, 'm', 'i') && NoPair(text, 'n', 'd')
  }

  lemma PlainLacks(text: string)
    requires Plain(text)
    ensures !Contains(text, SIGNER_KEY) && !Contains(text, MISSING) && !Contains(text, NOT_FOUND)
  {
    Lacks(text, SIGNER_KEY, 7);
    Lacks(text, MISSING, 0);
    Lacks(text, NOT_FOUND, 7);
  }

  /** Every fixed text before a path ends in a blank, after something other than `signer` or `not`. */
  lemma BlankEnded(before: string)
    requires Plain(before) && |before| > 6 && before[|before| - 1] == ' '
    requires before[|before| - 2] != 't' && before[|before| - 3] != 'e'
    ensures ClearBefore(before, SIGNER_KEY) && ClearBefore(before, MISSING) && ClearBefore(before, NOT_FOUND)
  {
    PlainLacks(before);
    EndsInBlank(before, SIGNER_KEY, 6, 4);
    EndsInBlank(before, MISSING, 7, 0);
    EndsInBlank(before, NOT_FOUND, 3, 2);
  }

  /** Every fixed text after a path starts with a character that, with the next, is in none of the words. */
  lemma StartsPlain(after: string)
    requires Plain(after) && |after| > 1 && (after[0] == ':' || (after[0] == ' ' && after[1] == '('))
    ensures ClearAfter(after, SIGNER_KEY) && ClearAfter(after, MISSING) && ClearAfter(after, NOT_FOUND)
  {
    PlainLacks(after);
    StartsApart(after, SIGNER_KEY);
    StartsApart(after, MISSING);
    StartsApart(after, NOT_FOUND);
  }

  lemma NothingAfter()
    ensures ClearAfter("", SIGNER_KEY) && ClearAfter("", MISSING) && ClearAfter("", NOT_FOUND)
  {
  }

  lemma CreatingText()
    ensures Plain(CREATING)
  {
  }

  lemma RefusingText()
    ensures Plain(REFUSING)
  {
  }

  lemma WritingText()
    ensures Plain(WRITING)
  {
  }

  lemma IrregularText()
    ensures Plain(IRREGULAR)
  {
  }

  /** Two plain texts joined at a blank. */
  lemma Joined(a: string, b: string)
    requires Plain(a) && Plain(b) && a != [] && a[|a| - 1] == ' '
    ensures Plain(a + b)
  {
  }

  lemma LinkText()
    ensures Plain(LINK)
  {
    RefusingText();
    var link := "through symlink ";
    assert Plain(link);
    Joined(REFUSING, link);
  }

  lemma LinkEndText()
    ensures Plain(LINK_END)
  {
    var remove, choose := " (remove it ", "or choose another path)";
    assert Plain(remove);
    assert Plain(choose);
    Joined(remove, choose);
  }

  lemma SaysAround(before: string, path: string, after: string)
    requires ClearBefore(before, SIGNER_KEY) && ClearBefore(before, MISSING) && ClearBefore(before, NOT_FOUND)
    requires ClearAfter(after, SIGNER_KEY) && ClearAfter(after, MISSING) && ClearAfter(after, NOT_FOUND)
    ensures SignerUnavailable(before + path + after) <==> SignerUnavailable(path)
  {
    AroundPath(before, path, after, SIGNER_KEY);
    AroundPath(before, path, after, MISSING);
    AroundPath(before, path, after, NOT_FOUND);
  }

  /** The error of a failed write reads like a missing signer key exactly when the envelope's own path does. */
  lemma WriteTextSays(write: Write, path: string)
    requires write != Written
    ensures SignerUnavailable(WriteText(write, path)) <==> SignerUnavailable(path)
  {
    NothingAfter();
    match write
    case NoParent => CreatingText(); BlankEnded(CREATING); SaysAround(CREATING, path, "");
    case ThroughLink =>
      LinkText(); BlankEnded(LINK);
      LinkEndText(); StartsPlain(LINK_END);
      SaysAround(LINK, path, LINK_END);
    case NotRegular =>
      RefusingText(); BlankEnded(REFUSING);
      IrregularText(); StartsPlain(IRREGULAR);
      SaysAround(REFUSING, path, IRREGULAR);
    case Unwritable(_) => WritingText(); BlankEnded(WRITING); SaysAround(WRITING, path, "");
  }

  /** A missing key is always recognised. */
  lemma MissingKeySays(path: string)
    ensures SignerUnavailable(SeedText(Missing, path))
  {
    var text := SeedText(Missing, path);
    assert HasAt(text, SIGNER_KEY, 0);
    var k := |KEY| + |path| + 4;
    assert text == KEY + path + " is missing";
    assert HasAt(" is missing", MISSING, 4);
    assert HasAt(text, MISSING, k);
  }

  /** Before a key's path: it ends in a blank that does not end `not `. */
  lemma KeyEnded(before: string)
    requires NoPair(before, 'm', 'i') && NoPair(before, 'n', 'd') && |before| > 6
    requires before[|before| - 1] == ' ' && before[|before| - 2] != 't'
    ensures ClearBefore(before, MISSING) && ClearBefore(before, NOT_FOUND)
  {
    Lacks(before, MISSING, 0);
    Lacks(before, NOT_FOUND, 7);
    EndsInBlank(before, MISSING, 7, 0);
    EndsInBlank(before, NOT_FOUND, 3, 2);
  }

  /** After a key's path: nothing, or a text that starts ` m`. */
  lemma StartsMust(after: string)
    requires Silent(after)
    ensures ClearAfter(after, MISSING) && ClearAfter(after, NOT_FOUND)
  {
    Lacks(after, MISSING, 0);
    if NoPair(after, 'n', 'd') { Lacks(after, NOT_FOUND, 7); } else { Lacks(after, NOT_FOUND, 0); }
    StartsApart(after, MISSING);
    StartsApart(after, NOT_FOUND);
  }

  lemma KeyTexts()
    ensures ClearBefore(KEY, MISSING) && ClearBefore(KEY, NOT_FOUND)
    ensures ClearBefore(INSPECTING + KEY, MISSING) && ClearBefore(INSPECTING + KEY, NOT_FOUND)
    ensures ClearBefore(READING + KEY, MISSING) && ClearBefore(READING + KEY, NOT_FOUND)
  {
    KeyEnded(KEY);
    KeyEnded(INSPECTING + KEY);
    KeyEnded(READING + KEY);
  }

  /** What follows the path in the error of a key that is there and no good. */
  function FaultText(fault: SeedFault): (after: string) {
    match fault
    case SymbolicLink => NO_LINK
    case NotAFile => REGULAR
    case Mode(octal) => MODE + octal
    case Size(bytes) => SIZE + (bytes + ")")
    case _ => ""
  }

  lemma FaultIsSilent(fault: SeedFault)
    ensures FaultText(fault) == "" || Silent(FaultText(fault))
  {
    match fault
    case SymbolicLink => NoLinkText();
    case NotAFile => RegularText();
    case Mode(octal) => ModeText(octal);
    case Size(bytes) => SizeText(bytes);
    case _ =>
  }

  /** Digits, closed or not, add no pair of letters. */
  lemma ThenDigits(a: string, b: string, x: char, y: char)
    requires NoPair(a, x, y) && 'a' <= x && (forall i :: 0 <= i < |b| ==> b[i] <= '9') && a != []
    requires a[|a| - 1] != x
    ensures NoPair(a + b, x, y)
  {
  }

  /** None of the pairs that `missing`, and `not found`, would show. */
  ghost predicate Silent(after: string) {
    && |after| > 1 && after[0] == ' ' && after[1] == 'm'
    && NoPair(after, 'm', 'i') && (NoPair(after, 'n', 'd') || NoPair(after, 'n', 'o'))
  }

  lemma NoLinkText()
    ensures Silent(NO_LINK)
  {
  }

  lemma RegularText()
    ensures Silent(REGULAR)
  {
  }

  lemma ModeText(octal: Digits)
    ensures Silent(MODE + octal)
  {
    ThenDigits(MODE, octal, 'm', 'i');
    ThenDigits(MODE, octal, 'n', 'o');
  }

  lemma SizeText(bytes: Digits)
    ensures Silent(SIZE + (bytes + ")"))
  {
    ThenDigits(SIZE, bytes + ")", 'm', 'i');
    ThenDigits(SIZE, bytes + ")", 'n', 'd');
  }

  /** The error of a key that does not load reads like a missing one exactly when it is, or its own path says so. */
  lemma SeedTextSays(fault: SeedFault, path: string)
    ensures SignerUnavailable(SeedText(fault, path)) <==>
            fault.Missing? || Contains(path, MISSING) || Contains(path, NOT_FOUND)
  {
    if fault.Missing? {
      MissingKeySays(path);
    } else {
      var before := if fault.Uninspectable? then INSPECTING + KEY else if fault.Unreadable? then READING + KEY else KEY;
      var after := FaultText(fault);
      assert SeedText(fault, path) == before + path + after;
      KeyTexts();
      FaultIsSilent(fault);
      if after == "" { NothingAfter(); } else { StartsMust(after); }
      AroundPath(before, path, after, MISSING);
      AroundPath(before, path, after, NOT_FOUND);
      SaysKey(before, path, after);
    }
  }

  lemma SaysKey(before: string, path: string, after: string)
    requires before in {KEY, INSPECTING + KEY, READING + KEY}
    ensures Contains(before + path + after, SIGNER_KEY)
  {
    var k := |before| - |KEY|;
    assert HasAt(KEY, SIGNER_KEY, 0);
    assert HasAt(before + path + after, SIGNER_KEY, k);
  }

  lemma OverflowIsNoKey()
    ensures !SignerUnavailable(OVERFLOWED)
  {
    Lacks(OVERFLOWED, SIGNER_KEY, 7);
  }
}
