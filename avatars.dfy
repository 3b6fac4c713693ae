/**
 * Initials, avatar classes and colour indices derived from a person's
 * name, and the task category label, in the copies the pages keep of
 * them: `utils.js`, `taskData.js`, `addtask-core.js` / `addTask.js` and
 * `account-name.js`.
 */
module Avatars {
  import opened Wrappers
  import opened Text

  /** A word: non-empty and free of white space. */
  predicate IsWord(w: string) {
    w != [] && forall j :: 0 <= j < |w| ==> !IsSpace(w[j])
  }

  predicate AllWords(words: seq<string>) {
    |words| >= 1 && forall k :: 0 <= k < |words| ==> IsWord(words[k])
  }

  /** A name written as its words separated by single spaces. */
  function Spoken(words: seq<string>): string
    requires |words| >= 1
  {
    Join(words, ' ')
  }

  /** The first letter of the first word and of the last word, upper-cased. */
  function FirstAndLast(words: seq<string>): string
    requires AllWords(words)
  {
    ToUpper([words[0][0], words[|words| - 1][0]])
  }

  /** `w.substring(0, 2)` */
  function Prefix2(w: string): (r: string)
    ensures |r| <= 2 && |r| <= |w| && r == w[..|r|]
  {
    if |w| <= 2 then w else w[..2]
  }

  /** A name of words is its own trimmed form. */
  lemma SpokenIsTrimmed(words: seq<string>)
    requires AllWords(words)
    ensures Trim(Spoken(words)) == Spoken(words)
  {
    JoinEnds(words, ' ');
    var s := Spoken(words);
    TrimStartNoSpace(s);
    TrimEndNoSpace(s);
  }

  /**
   * `getInitials(name)` of `utils.js`: the trimmed name split at single
   * spaces; two or more pieces give the first letters of the first and
   * the last piece, otherwise the first two characters; upper-cased.
   */
  function GetInitials(name: string): (r: string)
    ensures |r| <= 2
  {
    var t := Trim(name);
    var words := Split(t, ' ');
    if |words| >= 2 then
      SplitFirstNonEmpty(t, ' ');
      SplitLastNonEmpty(t, ' ');
      InitialsOfPieces(words)
    else InitialsOfPieces(words)
  }

  /** The initials `getInitials` takes from the pieces of a name. */
  function InitialsOfPieces(words: seq<string>): (r: string)
    requires |words| >= 1
    requires |words| >= 2 ==> words[0] != [] && words[|words| - 1] != []
    ensures |r| <= 2
  {
    if |words| >= 2 then ToUpper([words[0][0], words[|words| - 1][0]]) else ToUpper(Prefix2(words[0]))
  }

  /** `getInitials(fullName)` of `taskData.js`, written with `parts.length > 1`. */
  function TaskDataGetInitials(fullName: string): (r: string)
    ensures |r| <= 2
  {
    var t := Trim(fullName);
    var parts := Split(t, ' ');
    if |parts| > 1 then
      SplitFirstNonEmpty(t, ' ');
      SplitLastNonEmpty(t, ' ');
      ToUpper([parts[0][0], parts[|parts| - 1][0]])
    else ToUpper(Prefix2(parts[0]))
  }

  /** The two page copies of `getInitials` agree on every name. */
  lemma GetInitialsCopiesAgree(name: string)
    ensures TaskDataGetInitials(name) == GetInitials(name)
  {
  }

  /** For a name of words: first and last initial for two or more words, else the first two letters. */
  lemma GetInitialsOfWords(words: seq<string>)
    requires AllWords(words)
    ensures |words| >= 2 ==> GetInitials(Spoken(words)) == FirstAndLast(words)
    ensures |words| == 1 ==> GetInitials(Spoken(words)) == ToUpper(Prefix2(words[0]))
  {
    SpokenIsTrimmed(words);
    forall k | 0 <= k < |words| ensures ' ' !in words[k] {
      assert IsSpace(' ');
    }
    SplitOfJoin(words, ' ');
    GetInitialsOfSplit(Spoken(words), words);
  }

  /** The initials of a trimmed name, from the pieces it splits into at spaces. */
  lemma GetInitialsOfSplit(name: string, words: seq<string>)
    requires AllWords(words) && Trim(name) == name && Split(name, ' ') == words
    ensures |words| >= 2 ==> GetInitials(name) == FirstAndLast(words)
    ensures |words| == 1 ==> GetInitials(name) == ToUpper(Prefix2(words[0]))
  {
    assert GetInitials(name) == InitialsOfPieces(words);
  }

  /** Blanks around the name do not change its initials; a blank name has none. */
  lemma GetInitialsIgnoresPadding(p: string, name: string, q: string)
    requires AllSpace(p) && AllSpace(q)
    ensures GetInitials(p + name + q) == GetInitials(name)
    ensures IsBlank(name) ==> GetInitials(name) == ""
  {
    TrimPadded(p, name, q);
  }

  /**
   * `initials(fullName)` of `addtask-core.js` (and its copy in
   * `addTask.js`): `"??"` for a blank name; else the first letter of the
   * first word and either the first letter of the last word or the
   * second letter of the only word; upper-cased.
   */
  function CoreInitials(fullName: string): (r: string)
    ensures 1 <= |r| <= 2
    ensures IsBlank(fullName) ==> r == "??"
    ensures !IsBlank(fullName) ==> r[0] == UpperChar(Trim(fullName)[0])
  {
    var t := Trim(fullName);
    SplitWsOfTrimmed(t);
    CoreOfPieces(SplitWs(t))
  }

  /** The initials `initials` takes from the words of a name; `"??"` when the first is empty. */
  function CoreOfPieces(p: seq<string>): (r: string)
    requires |p| >= 1 && (|p| > 1 ==> p[|p| - 1] != [])
    ensures 1 <= |r| <= 2
    ensures p[0] == [] ==> r == "??"
    ensures p[0] != [] ==> r[0] == UpperChar(p[0][0])
  {
    if p[0] == [] then "??"
    else
      var second := if |p| > 1 then [p[|p| - 1][0]] else if |p[0]| > 1 then [p[0][1]] else [];
      ToUpper([p[0][0]] + second)
  }

  /** For a name of words the core initials are those of `getInitials`. */
  lemma CoreInitialsOfWords(words: seq<string>)
    requires AllWords(words)
    ensures CoreInitials(Spoken(words)) == GetInitials(Spoken(words))
  {
    SpokenIsTrimmed(words);
    SplitWsOfJoin(words);
    GetInitialsOfWords(words);
    CoreInitialsOfSplit(Spoken(words), words);
    var w := words[0];
    if |words| == 1 {
      if |w| >= 2 {
        assert [w[0]] + [w[1]] == w[..2];
      } else {
        assert [w[0]] == w;
      }
    }
  }

  /** The core initials of a trimmed name, from the words it splits into. */
  lemma CoreInitialsOfSplit(name: string, words: seq<string>)
    requires AllWords(words) && Trim(name) == name && SplitWs(name) == words
    ensures |words| > 1 ==> CoreInitials(name) == FirstAndLast(words)
    ensures |words| == 1 ==> CoreInitials(name) == ToUpper([words[0][0]] + (if |words[0]| > 1 then [words[0][1]] else []))
  {
    assert words[0] != [];
    assert CoreInitials(name) == CoreOfPieces(words);
    if |words| > 1 {
      assert [words[0][0]] + [words[|words| - 1][0]] == [words[0][0], words[|words| - 1][0]];
    }
  }

  /**
   * `getInitials(fullName)` of `account-name.js`: `"G"` for a missing or
   * empty name; otherwise the first letter of the first word and, with
   * more than one word, of the last word, upper-cased, or `"G"` when that
   * is empty.
   */
  function AccountInitials(fullName: Option<string>): (r: string)
    ensures 1 <= |r| <= 2
    ensures fullName.None? || IsBlank(fullName.value) ==> r == "G"
  {
    if fullName.None? || fullName.value == "" then "G"
    else
      var t := Trim(fullName.value);
      SplitWsOfTrimmed(t);
      AccountOfPieces(SplitWs(t))
  }

  /** The initials `getInitials` of `account-name.js` takes from the words of a name; `"G"` when there are none. */
  function AccountOfPieces(parts: seq<string>): (r: string)
    requires |parts| >= 1 && (|parts| > 1 ==> parts[|parts| - 1] != [])
    ensures 1 <= |r| <= 2
  {
    var first := if parts[0] != [] then [parts[0][0]] else [];
    var last := if |parts| > 1 then [parts[|parts| - 1][0]] else [];
    if first + last == [] then "G" else ToUpper(first + last)
  }

  /** The account badge shows the first and last initial, or one letter for a single word. */
  lemma AccountInitialsOfWords(words: seq<string>)
    requires AllWords(words)
    ensures |words| >= 2 ==> AccountInitials(Some(Spoken(words))) == FirstAndLast(words)
    ensures |words| == 1 ==> AccountInitials(Some(Spoken(words))) == ToUpper([words[0][0]])
  {
    SpokenIsTrimmed(words);
    SplitWsOfJoin(words);
    JoinEnds(words, ' ');
    AccountInitialsOfSplit(Spoken(words), words);
  }

  /** The account initials of a trimmed, non-empty name, from the words it splits into. */
  lemma AccountInitialsOfSplit(name: string, words: seq<string>)
    requires AllWords(words) && name != "" && Trim(name) == name && SplitWs(name) == words
    ensures |words| >= 2 ==> AccountInitials(Some(name)) == FirstAndLast(words)
    ensures |words| == 1 ==> AccountInitials(Some(name)) == ToUpper([words[0][0]])
  {
    assert words[0] != [];
    assert AccountInitials(Some(name)) == AccountOfPieces(words);
    if |words| > 1 {
      assert [words[0][0]] + [words[|words| - 1][0]] == [words[0][0], words[|words| - 1][0]];
    } else {
      assert [words[0][0]] + [] == [words[0][0]];
    }
  }

  /** What the account badge reads from storage. */
  datatype AccountState = AccountState(name: string, isGuest: bool, initials: string)

  /**
   * `readState()`: the trimmed stored name; a stored name means no guest,
   * otherwise guest iff the flag is `"true"`; initials only for a named
   * non-guest, else `"G"`.
   */
  function ReadState(storedName: Option<string>, storedGuest: Option<string>): (r: AccountState)
    ensures r.name != [] ==> !r.isGuest && r.initials == AccountInitials(Some(r.name))
    ensures r.name == [] ==> r.initials == "G" && r.isGuest == GuestFlag(storedGuest)
  {
    var name := if storedName.Some? then Trim(storedName.value) else "";
    var isGuest := if name != [] then false else GuestFlag(storedGuest);
    AccountState(name, isGuest, if name != [] && !isGuest then AccountInitials(Some(name)) else "G")
  }

  /** `(localStorage.getItem("isGuest") || "false") === "true"` */
  function GuestFlag(storedGuest: Option<string>): (g: bool)
    ensures g <==> storedGuest == Some("true")
  {
    (if storedGuest.Some? && storedGuest.value != "" then storedGuest.value else "false") == "true"
  }

  /** The seven avatar classes of `getAvatarClass`. */
  const AvatarClasses: seq<string> := [
    "profile-badge-red", "profile-badge-blue", "profile-badge-green",
    "profile-badge-purple", "profile-badge-orange", "profile-badge-pink", "profile-badge-teal"
  ]

  /** A character's length in UTF-16 code units. */
  function Utf16Units(c: char): nat {
    if c as int < 0x10000 then 1 else 2
  }

  /** `s.length`: UTF-16 code units. */
  function Utf16Length(s: string): nat {
    if s == [] then 0 else Utf16Length(s[..|s| - 1]) + Utf16Units(s[|s| - 1])
  }

  lemma {:induction false} Utf16LengthConcat(a: string, b: string)
    ensures Utf16Length(a + b) == Utf16Length(a) + Utf16Length(b)
    decreases |b|
  {
    if b == [] {
      assert a + b == a;
    } else {
      assert (a + b)[..|a + b| - 1] == a + b[..|b| - 1];
      Utf16LengthConcat(a, b[..|b| - 1]);
    }
  }

  /** `getAvatarClass(name)`: the class at `name.length % 7`. */
  function GetAvatarClass(name: string): (r: string)
    ensures r in AvatarClasses
  {
    AvatarClasses[AvatarIndex(name)]
  }

  /** `name.length % 7` */
  function AvatarIndex(name: string): (i: nat)
    ensures i < |AvatarClasses|
  {
    Utf16Length(name) % 7
  }

  /** Appending a multiple of seven code units keeps the avatar class. */
  lemma AvatarClassPeriodic(name: string, extra: string)
    requires Utf16Length(extra) % 7 == 0
    ensures GetAvatarClass(name + extra) == GetAvatarClass(name)
  {
    Utf16LengthConcat(name, extra);
    AddMultipleOfSeven(Utf16Length(name), Utf16Length(extra));
    assert AvatarIndex(name + extra) == AvatarIndex(name);
  }

  lemma AddMultipleOfSeven(n: nat, m: nat)
    requires m % 7 == 0
    ensures (n + m) % 7 == n % 7
  {
    var q := m / 7;
    assert m == 7 * q;
    ModPeriodic(n, q);
  }

  lemma {:induction false} ModPeriodic(n: nat, q: nat)
    ensures (n + 7 * q) % 7 == n % 7
    decreases q
  {
    if q > 0 {
      ModPeriodic(n, q - 1);
      assert n + 7 * q == (n + 7 * (q - 1)) + 7;
    }
  }

  /** Names with as many code units get the same class. */
  lemma AvatarClassByLength(a: string, b: string)
    requires Utf16Length(a) == Utf16Length(b)
    ensures GetAvatarClass(a) == GetAvatarClass(b)
  {
  }

  /** `c.charCodeAt(0)` for a character of `Array.from(s)`: the code, or its high surrogate. */
  function FirstCodeUnit(c: char): (u: nat)
    ensures u < 0x10000
  {
    if c as int < 0x10000 then c as int else 0xD800 + (c as int - 0x10000) / 0x400
  }

  /** The `reduce` of `colorIdx`: the sum of the characters' first code units. */
  function CodeSum(s: string): nat {
    if s == [] then 0 else CodeSum(s[..|s| - 1]) + FirstCodeUnit(s[|s| - 1])
  }

  lemma {:induction false} CodeSumConcat(a: string, b: string)
    ensures CodeSum(a + b) == CodeSum(a) + CodeSum(b)
    decreases |b|
  {
    if b == [] {
      assert a + b == a;
    } else {
      assert (a + b)[..|a + b| - 1] == a + b[..|b| - 1];
      CodeSumConcat(a, b[..|b| - 1]);
    }
  }

  /** `colorIdx(name)`: the code sum modulo 7, plus one. */
  function ColorIdx(name: string): (r: int)
    ensures 1 <= r <= 7
  {
    CodeSum(name) % 7 + 1
  }

  /** The colour index does not depend on the order of the name's two halves. */
  lemma ColorIdxOrderFree(a: string, b: string)
    ensures ColorIdx(a + b) == ColorIdx(b + a)
  {
    CodeSumConcat(a, b);
    CodeSumConcat(b, a);
  }

  const TechnicalTask: string := "Technical task"
  const UserStory: string := "User Story"

  /**
   * `normCategory(raw)`: the trimmed, lower-cased text names a technical
   * task if it mentions "technical", a user story if it mentions "user",
   * and a technical task otherwise.
   */
  function NormCategory(raw: string): (r: string)
    ensures r == TechnicalTask || r == UserStory
    ensures r == UserStory <==>
      !Contains(ToLower(Trim(raw)), "technical") && Contains(ToLower(Trim(raw)), "user")
  {
    var v := ToLower(Trim(raw));
    if Contains(v, "technical") then TechnicalTask
    else if Contains(v, "user") then UserStory
    else TechnicalTask
  }

  /** The lower-cased technical label mentions "technical". */
  lemma TechnicalTaskReadsTechnical(name: string)
    requires name == TechnicalTask
    ensures Contains(ToLower(Trim(name)), "technical")
  {
    TrimUnpadded(name);
    TechnicalTaskLower(name);
    TechnicalTaskMentions(ToLower(name));
  }

  lemma TechnicalTaskLower(name: string)
    requires name == TechnicalTask
    ensures ToLower(name) == "technical task"
  {
    assert IsLowerCase(name[1..]);
    ToLowerCapitalised(name);
  }

  lemma TechnicalTaskMentions(low: string)
    requires low == "technical task"
    ensures Contains(low, "technical")
  {
    ContainsInfix("", "technical", " task");
    assert "" + "technical" + " task" == low;
  }

  /** The lower-cased user-story label mentions "user" but not "technical". */
  lemma UserStoryReadsUser(name: string)
    requires name == UserStory
    ensures Contains(ToLower(Trim(name)), "user")
    ensures !Contains(ToLower(Trim(name)), "technical")
  {
    TrimUnpadded(name);
    UserStoryLower(name);
    UserStoryMentions(ToLower(name));
  }

  lemma UserStoryLower(name: string)
    requires name == UserStory
    ensures ToLower(name) == "user story"
  {
    var a := name[..5];
    var b := name[5..];
    assert name == a + b;
    assert IsLowerCase(a[1..]) && IsLowerCase(b[1..]);
    ToLowerCapitalised(a);
    ToLowerCapitalised(b);
    ToLowerConcat(a, b);
  }

  lemma UserStoryMentions(low: string)
    requires low == "user story"
    ensures Contains(low, "user") && !Contains(low, "technical")
  {
    ContainsInfix("", "user", " story");
    assert "" + "user" + " story" == low;
    assert "technical"[2] == 'c' && 'c' !in low;
    NotContainsMissingChar(low, "technical", 2);
  }

  lemma TrimUnpadded(s: string)
    requires s != [] && !IsSpace(s[0]) && !IsSpace(s[|s| - 1])
    ensures Trim(s) == s
  {
    TrimStartNoSpace(s);
    TrimEndNoSpace(s);
  }

  /** The two labels normalise to themselves, so normalising twice is normalising once. */
  lemma NormCategoryIdempotent(raw: string)
    ensures NormCategory(NormCategory(raw)) == NormCategory(raw)
  {
    var r := NormCategory(raw);
    if r == TechnicalTask {
      TechnicalTaskReadsTechnical(r);
    } else {
      UserStoryReadsUser(r);
    }
  }
}
