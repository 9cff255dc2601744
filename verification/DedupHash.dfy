/**
  The immutable ledger's idempotency key: five canonical fields and an occurrence ordinal. SHA-256
  is taken to be injective, so the hash is modelled by the canonical string it digests.
 */
module DedupHash {
  import opened Prelude

  /**
    A posted row of a payload. The date is the text the payload carries, day what it parses to, None if it
    does not; amounts are rendered to two decimals.
   */
  datatype PostedIn = PostedIn(account: string, postedDate: string, day: Option<int>, amount: string,
                               description: string, balanceAfter: Option<string>)

  /** What Go counts as white space. */
  predicate IsSpace(c: char) {
    var n := c as int;
    || n == 0x20 || 0x09 <= n <= 0x0D || n == 0x85 || n == 0xA0 || n == 0x1680 || 0x2000 <= n <= 0x200A
    || n == 0x2028 || n == 0x2029 || n == 0x202F || n == 0x205F || n == 0x3000
  }

  /** In ASCII: tab, line feed, vertical tab, form feed, carriage return and space. */
  lemma AsciiSpaces(c: char)
    requires c as int < 0x80
    ensures IsSpace(c) <==> c as int in [9, 10, 11, 12, 13, 32]
  {
  }

  function TrimLeft(s: string): string {
    if s != [] && IsSpace(s[0]) then TrimLeft(s[1..]) else s
  }

  function TrimRight(s: string): string {
    if s != [] && IsSpace(s[|s| - 1]) then TrimRight(s[..|s| - 1]) else s
  }

  function Trim(s: string): string {
    TrimRight(TrimLeft(s))
  }

  /** The words of a text, a single space between them. */
  function Collapse(s: string): string {
    if s == [] then []
    else
      var n := |s| - 1;
      var words := Collapse(s[..n]);
      if IsSpace(s[n]) then words
      else if n > 0 && IsSpace(s[n - 1]) && words != [] then words + " " + [s[n]]
      else words + [s[n]]
  }

  /** The canonical key rows are grouped by: everything but the ordinal. */
  function CanonicalFields(r: PostedIn): string {
    Trim(r.account) + "|" + r.postedDate + "|" + r.amount + "|" + Collapse(r.description) + "|"
    + r.balanceAfter.GetOr("")
  }

  /** A plain decimal, no padding. */
  function Itoa(n: nat): (s: string)
    ensures s != []
    ensures forall i :: 0 <= i < |s| ==> s[i] != '|'
    ensures Atoi(s) == n
  {
    if n < 10 then [Digit(n)]
    else
      var high := Itoa(n / 10);
      assert (high + [Digit(n % 10)])[..|high|] == high;
      high + [Digit(n % 10)]
  }

  function Digit(d: nat): (c: char)
    requires d < 10
    ensures c != '|' && DigitValue(c) == d
  {
    "0123456789"[d]
  }

  function DigitValue(c: char): int {
    c as int - '0' as int
  }

  function Atoi(s: string): int {
    if s == [] then 0 else 10 * Atoi(s[..|s| - 1]) + DigitValue(s[|s| - 1])
  }

  function Hash(key: string, occurrence: nat): string {
    key + "|" + Itoa(occurrence)
  }

  lemma OrdinalAfterLastBar(key: string, n: nat)
    ensures var h := Hash(key, n);
            && |key| < |h| && h[|key|] == '|'
            && (forall i :: |key| < i < |h| ==> h[i] != '|')
            && h[..|key|] == key && h[|key| + 1..] == Itoa(n)
  {
    var h, digits := Hash(key, n), Itoa(n);
    forall i | |key| < i < |h| ensures h[i] != '|' {
      assert h[i] == digits[i - |key| - 1];
    }
  }

  /** The trailing ordinal is uniquely decodable, whatever separators the key itself contains. */
  lemma HashInjective(key: string, n: nat, key': string, n': nat)
    requires Hash(key, n) == Hash(key', n')
    ensures key == key' && n == n'
  {
    OrdinalAfterLastBar(key, n);
    OrdinalAfterLastBar(key', n');
    assert |key| == |key'|;
  }

  // ----- ordinals within a payload -----

  /** How many rows of a payload share a key. */
  function Multiplicity(rows: seq<PostedIn>, key: string): nat {
    if rows == [] then 0
    else
      Multiplicity(rows[..|rows| - 1], key) + if CanonicalFields(rows[|rows| - 1]) == key then 1 else 0
  }

  /** The row's ordinal: how many earlier rows of the payload share its key. */
  function OccurrenceOf(rows: seq<PostedIn>, i: nat): nat
    requires i < |rows|
  {
    Multiplicity(rows[..i], CanonicalFields(rows[i]))
  }

  function HashOf(rows: seq<PostedIn>, i: nat): string
    requires i < |rows|
  {
    Hash(CanonicalFields(rows[i]), OccurrenceOf(rows, i))
  }

  lemma {:induction false} MultiplicityGrows(rows: seq<PostedIn>, i: nat, j: nat, key: string)
    requires i <= j <= |rows|
    ensures Multiplicity(rows[..i], key) <= Multiplicity(rows[..j], key)
    ensures i < j && CanonicalFields(rows[i]) == key ==> Multiplicity(rows[..i], key) < Multiplicity(rows[..j], key)
  {
    hide CanonicalFields;
    if i < j {
      MultiplicityGrows(rows, i, j - 1, key);
      assert rows[..j][..j - 1] == rows[..j - 1] && rows[..j][j - 1] == rows[j - 1];
    }
  }

  /** Two rows of one payload never share a hash: the collision canary cannot fire. */
  lemma HashesDistinct(rows: seq<PostedIn>, i: nat, j: nat)
    requires i < j < |rows|
    ensures HashOf(rows, i) != HashOf(rows, j)
  {
    var key := CanonicalFields(rows[i]);
    if HashOf(rows, i) == HashOf(rows, j) {
      HashInjective(key, OccurrenceOf(rows, i), CanonicalFields(rows[j]), OccurrenceOf(rows, j));
      MultiplicityGrows(rows, i, j, key);
    }
  }

  /** Some row of the payload has this hash. */
  ghost predicate Carries(rows: seq<PostedIn>, h: string) {
    exists i :: 0 <= i < |rows| && HashOf(rows, i) == h
  }

  lemma HashOfPrefix(rows: seq<PostedIn>, m: nat, i: nat)
    requires i < m <= |rows|
    ensures HashOf(rows[..m], i) == HashOf(rows, i)
  {
    assert rows[..m][..i] == rows[..i];
  }

  /** The last row adds one hash, its own. */
  lemma CarriesLast(rows: seq<PostedIn>, h: string)
    requires rows != []
    ensures var m := |rows| - 1; Carries(rows, h) <==> Carries(rows[..m], h) || HashOf(rows, m) == h
  {
    hide HashOf;
    var m := |rows| - 1;
    if Carries(rows[..m], h) {
      var i :| 0 <= i < m && HashOf(rows[..m], i) == h;
      HashOfPrefix(rows, m, i);
    }
    if Carries(rows, h) {
      var i :| 0 <= i < |rows| && HashOf(rows, i) == h;
      if i < m {
        HashOfPrefix(rows, m, i);
      }
    }
  }

  /** A payload's hashes for a key carry exactly the ordinals below its multiplicity. */
  lemma {:induction false} HashesArePrefix(rows: seq<PostedIn>, key: string, n: nat)
    ensures Carries(rows, Hash(key, n)) <==> n < Multiplicity(rows, key)
  {
    hide Hash, CanonicalFields, Carries, Itoa;
    if rows != [] {
      var m := |rows| - 1;
      HashesArePrefix(rows[..m], key, n);
      CarriesLast(rows, Hash(key, n));
      if HashOf(rows, m) == Hash(key, n) {
        HashInjective(CanonicalFields(rows[m]), OccurrenceOf(rows, m), key, n);
      }
    } else {
      NothingCarried(rows, Hash(key, n));
    }
  }

  lemma NothingCarried(rows: seq<PostedIn>, h: string)
    requires rows == []
    ensures !Carries(rows, h)
  {
  }

  // ----- the fields behind a key -----

  function Bars(s: string): nat {
    if s == [] then 0 else Bars(s[..|s| - 1]) + if s[|s| - 1] == '|' then 1 else 0
  }

  lemma {:induction false} BarsAppend(s: string, t: string)
    ensures Bars(s + t) == Bars(s) + Bars(t)
  {
    if t == [] {
      assert s + t == s;
    } else {
      var n := |t| - 1;
      assert (s + t)[..|s| + n] == s + t[..n];
      BarsAppend(s, t[..n]);
    }
  }

  lemma OneBar()
    ensures Bars("|") == 1
  {
    assert "|"[..0] == [];
  }

  /** Two ways to cut a text at a bar are the same if they leave equally many bars before the cut. */
  lemma CutAtBar(a: string, x: string, b: string, y: string)
    requires a + "|" + x == b + "|" + y && Bars(a) == Bars(b)
    ensures a == b && x == y
  {
    if |a| < |b| {
      CutEarlier(a, x, b, y);
    } else if |b| < |a| {
      CutEarlier(b, y, a, x);
    } else {
      var s := a + "|" + x;
      assert a == s[..|a|] == (b + "|" + y)[..|b|] == b;
      assert x == s[|a| + 1..] == (b + "|" + y)[|b| + 1..] == y;
    }
  }

  lemma CutEarlier(a: string, x: string, b: string, y: string)
    requires a + "|" + x == b + "|" + y && |a| < |b|
    ensures Bars(a) < Bars(b)
  {
    var s := a + "|" + x;
    assert b == (b + "|" + y)[..|b|] == s[..|b|];
    assert s[..|a| + 1] == a + "|";
    var rest := b[|a| + 1..];
    assert b == (a + "|") + rest;
    BarsAppend(a + "|", rest);
    BarsAppend(a, "|");
    OneBar();
  }

  /** Dates and rendered amounts hold no bar, and a rendered balance is some text. */
  predicate Rendered(r: PostedIn) {
    && Bars(r.postedDate) == Bars(r.amount) == 0
    && (r.balanceAfter.Some? ==> r.balanceAfter.value != "" && Bars(r.balanceAfter.value) == 0)
  }

  predicate SameFields(r: PostedIn, s: PostedIn) {
    && Trim(r.account) == Trim(s.account) && r.postedDate == s.postedDate && r.amount == s.amount
    && Collapse(r.description) == Collapse(s.description) && r.balanceAfter == s.balanceAfter
  }

  /** The key after the account, after the date, after the amount. */
  function Tail(r: PostedIn, from: nat): string {
    var last := Collapse(r.description) + "|" + r.balanceAfter.GetOr("");
    if from == 2 then last
    else if from == 1 then r.amount + "|" + last
    else r.postedDate + "|" + (r.amount + "|" + last)
  }

  lemma KeyIsAccountAndTail(r: PostedIn)
    ensures CanonicalFields(r) == Trim(r.account) + "|" + Tail(r, 0)
  {
    hide Trim, Collapse;
    assert CanonicalFields(r) == Trim(r.account) + ("|" + Tail(r, 0));
  }

  /**
    Rows with one key have the same fields exactly when their account names hold equally many bars: the
    description's own bars do not matter.
   */
  lemma KeyDecidesFields(r: PostedIn, s: PostedIn)
    requires Rendered(r) && Rendered(s) && CanonicalFields(r) == CanonicalFields(s)
    ensures SameFields(r, s) <==> Bars(Trim(r.account)) == Bars(Trim(s.account))
  {
    hide Trim, Collapse, Bars, CanonicalFields;
    KeyIsAccountAndTail(r);
    KeyIsAccountAndTail(s);
    if Bars(Trim(r.account)) == Bars(Trim(s.account)) {
      CutAtBar(Trim(r.account), Tail(r, 0), Trim(s.account), Tail(s, 0));
      TailDecidesFields(r, s);
    }
  }

  lemma TailDecidesFields(r: PostedIn, s: PostedIn)
    requires Rendered(r) && Rendered(s) && Tail(r, 0) == Tail(s, 0)
    ensures r.postedDate == s.postedDate && r.amount == s.amount
    ensures Collapse(r.description) == Collapse(s.description) && r.balanceAfter == s.balanceAfter
  {
    hide Collapse, Bars;
    CutAtBar(r.postedDate, Tail(r, 1), s.postedDate, Tail(s, 1));
    CutAtBar(r.amount, Tail(r, 2), s.amount, Tail(s, 2));
    BalanceBars(r);
    BalanceBars(s);
    CutAtBar(Collapse(r.description), r.balanceAfter.GetOr(""), Collapse(s.description), s.balanceAfter.GetOr(""));
  }

  lemma BalanceBars(r: PostedIn)
    requires Rendered(r)
    ensures Bars(Tail(r, 2)) == Bars(Collapse(r.description)) + 1
  {
    hide Collapse;
    BarsAppend(Collapse(r.description) + "|", r.balanceAfter.GetOr(""));
    BarsAppend(Collapse(r.description), "|");
    OneBar();
  }

  /** Among accounts whose names hold no bar, equal hashes mean equal fields and ordinals. */
  lemma HashDecidesFields(r: PostedIn, n: nat, s: PostedIn, m: nat)
    requires Rendered(r) && Rendered(s) && Bars(Trim(r.account)) == Bars(Trim(s.account))
    ensures Hash(CanonicalFields(r), n) == Hash(CanonicalFields(s), m) <==> SameFields(r, s) && n == m
  {
    hide Trim, Collapse, Bars, Hash;
    if Hash(CanonicalFields(r), n) == Hash(CanonicalFields(s), m) {
      HashInjective(CanonicalFields(r), n, CanonicalFields(s), m);
      hide CanonicalFields;
      KeyDecidesFields(r, s);
    }
  }

  /** Where one account's name reads on as date and amount, a description can make up for the difference. */
  lemma FieldsRunTogether(r: PostedIn, s: PostedIn)
    requires Trim(s.account) == Trim(r.account) + "|" + r.postedDate + "|" + r.amount
    requires Collapse(r.description) == s.postedDate + "|" + s.amount + "|" + Collapse(s.description)
    requires r.balanceAfter == s.balanceAfter
    ensures CanonicalFields(r) == CanonicalFields(s)
  {
    hide Trim, Collapse;
    var a, d, m, x := Trim(r.account), r.postedDate, r.amount, "|" + r.balanceAfter.GetOr("");
    var e, k, w := s.postedDate, s.amount, Collapse(s.description);
    assert CanonicalFields(r) == a + "|" + d + "|" + m + "|" + (e + "|" + k + "|" + w) + x;
    assert CanonicalFields(s) == (a + "|" + d + "|" + m) + "|" + e + "|" + k + "|" + w + x;
  }

  const DAY: string := "2025-07-10"
  const NEXT_DAY: string := "2025-07-11"
  const ONE: string := "1.00"
  const TWO: string := "2.00"

  /** Account a, whose row's description happens to read 2025-07-11|2.00|x. */
  const PLAIN_NAME: PostedIn := PostedIn("a", DAY, Some(739441), ONE, NEXT_DAY + "|" + TWO + "|" + "x", None)

  /** Account a|2025-07-10|1.00. */
  const NAME_WITH_BARS: PostedIn := PostedIn("a" + "|" + DAY + "|" + ONE, NEXT_DAY, Some(739442), TWO, "x", None)

  /** A bar in an account name lets two rows of different accounts, days and amounts share a key. */
  lemma BarInNameConfuses()
    ensures Rendered(PLAIN_NAME) && Rendered(NAME_WITH_BARS)
    ensures CanonicalFields(PLAIN_NAME) == CanonicalFields(NAME_WITH_BARS) && !SameFields(PLAIN_NAME, NAME_WITH_BARS)
  {
    hide Bars, Trim, Collapse, CanonicalFields, IsSpace;
    BothRendered();
    PlainParts();
    var name, text := NAME_WITH_BARS.account, PLAIN_NAME.description;
    Unspaced("a");
    Unspaced("x");
    Unspaced(name);
    Unspaced(text);
    FieldsRunTogether(PLAIN_NAME, NAME_WITH_BARS);
  }

  lemma BothRendered()
    ensures Rendered(PLAIN_NAME) && Rendered(NAME_WITH_BARS)
  {
    Barless(DAY);
    Barless(NEXT_DAY);
    Barless(ONE);
    Barless(TWO);
    hide Bars;
  }

  predicate Plain(s: string) {
    forall i :: 0 <= i < |s| ==> !IsSpace(s[i])
  }

  lemma PlainParts()
    ensures Plain("a") && Plain("x") && Plain(NAME_WITH_BARS.account) && Plain(PLAIN_NAME.description)
  {
    PlainPieces();
    hide IsSpace;
    assert forall s, t :: Plain(s) && Plain(t) ==> Plain(s + t);
  }

  lemma PlainPieces()
    ensures Plain(DAY) && Plain(NEXT_DAY) && Plain(ONE) && Plain(TWO) && Plain("|") && Plain("a") && Plain("x")
  {
  }

  lemma {:induction false} Barless(s: string)
    requires forall i :: 0 <= i < |s| ==> s[i] != '|'
    ensures Bars(s) == 0
  {
    if s != [] {
      Barless(s[..|s| - 1]);
    }
  }

  lemma {:induction false} NothingToCollapse(s: string)
    requires Plain(s)
    ensures Collapse(s) == s
  {
    hide IsSpace;
    if s != [] {
      var n := |s| - 1;
      assert !IsSpace(s[n]) && (n > 0 ==> !IsSpace(s[n - 1]));
      NothingToCollapse(s[..n]);
    }
  }

  lemma Unspaced(s: string)
    requires Plain(s)
    ensures Collapse(s) == s && Trim(s) == s
  {
    hide IsSpace, Collapse;
    NothingToCollapse(s);
  }

  // ----- words -----

  /** The last word goes on. */
  function Longer(words: seq<string>, c: char): (out: seq<string>)
    requires words != []
    ensures out != []
  {
    words[..|words| - 1] + [words[|words| - 1] + [c]]
  }

  /** The words of a text: its longest stretches without white space. */
  function Words(s: string): (words: seq<string>)
    ensures s != [] && !IsSpace(s[|s| - 1]) ==> words != []
  {
    if s == [] then []
    else
      var n := |s| - 1;
      var words := Words(s[..n]);
      if IsSpace(s[n]) then words
      else if n > 0 && !IsSpace(s[n - 1]) then Longer(words, s[n])
      else words + [[s[n]]]
  }

  function Join(words: seq<string>): string {
    if words == [] then []
    else if |words| == 1 then words[0]
    else Join(words[..|words| - 1]) + " " + words[|words| - 1]
  }

  ghost predicate AreWords(words: seq<string>) {
    forall i :: 0 <= i < |words| ==> words[i] != [] && Plain(words[i])
  }

  lemma {:induction false} WordsAreWords(s: string)
    ensures AreWords(Words(s))
  {
    if s != [] {
      WordsAreWords(s[..|s| - 1]);
    }
  }

  lemma JoinLast(words: seq<string>, word: string)
    ensures Join(words + [word]) == if words == [] then word else Join(words) + " " + word
  {
    assert (words + [word])[..|words|] == words;
  }

  lemma LongerLast(words: seq<string>, word: string, c: char)
    ensures Longer(words + [word], c) == words + [word + [c]]
  {
    assert (words + [word])[..|words|] == words;
  }

  /** One more letter of the last word. */
  lemma JoinLonger(words: seq<string>, word: string, c: char)
    ensures Join(Longer(words + [word], c)) == Join(words + [word]) + [c]
  {
    hide Join, Longer;
    LongerLast(words, word, c);
    JoinLast(words, word);
    JoinLast(words, word + [c]);
    Regroup(Join(words) + " ", word, c);
  }

  lemma Regroup(s: string, t: string, c: char)
    ensures s + (t + [c]) == (s + t) + [c]
  {
  }

  lemma LastWord(words: seq<string>)
    requires words != []
    ensures words == words[..|words| - 1] + [words[|words| - 1]]
  {
  }

  lemma {:induction false} NoWordsNoText(s: string)
    ensures Collapse(s) == [] <==> Words(s) == []
  {
    if s != [] {
      NoWordsNoText(s[..|s| - 1]);
    }
  }

  /** Collapsing a text leaves its words with one space between. */
  lemma {:induction false} CollapseJoinsWords(s: string)
    ensures Collapse(s) == Join(Words(s))
  {
    if s != [] {
      hide IsSpace, Join, Longer;
      var n := |s| - 1;
      var words := Words(s[..n]);
      CollapseJoinsWords(s[..n]);
      NoWordsNoText(s[..n]);
      assert Join([]) == [] by { JoinNothing(); }
      if !IsSpace(s[n]) {
        if n > 0 && !IsSpace(s[n - 1]) {
          LastWord(words);
          JoinLonger(words[..|words| - 1], words[|words| - 1], s[n]);
        } else {
          JoinLast(words, [s[n]]);
        }
      }
    } else {
      JoinNothing();
    }
  }

  lemma JoinNothing()
    ensures Join([]) == []
  {
  }

  lemma WordsStep(s: string, c: char)
    ensures Words(s + [c]) == if IsSpace(c) then Words(s)
                              else if s != [] && !IsSpace(s[|s| - 1]) then Longer(Words(s), c)
                              else Words(s) + [[c]]
  {
    hide IsSpace, Longer;
    assert (s + [c])[..|s|] == s;
  }

  /** Going on with letters only makes the last word longer, or a new one after a space or at the start. */
  lemma {:induction false} WordsGrow(s: string, word: string)
    requires word != [] && Plain(word) && (s == [] || IsSpace(s[|s| - 1]))
    ensures Words(s + word) == Words(s) + [word]
  {
    hide IsSpace, Words, Longer;
    var n := |word| - 1;
    var w, c := word[..n], word[n];
    assert word == w + [c];
    Regroup(s, w, c);
    WordsStep(s + w, c);
    if n == 0 {
      assert w == [] && s + w == s;
    } else {
      WordsGrow(s, w);
      LongerLast(Words(s), w, c);
      assert (s + w)[|s + w| - 1] == word[n - 1];
    }
  }

  lemma WordsOfSpace(s: string)
    ensures Words(s + " ") == Words(s)
  {
    assert (s + " ")[..|s|] == s;
  }

  /** Words joined by single spaces are read back as they were. */
  lemma {:induction false} WordsOfJoin(words: seq<string>)
    requires AreWords(words)
    ensures Words(Join(words)) == words
  {
    if words != [] {
      hide IsSpace, Words;
      var n := |words| - 1;
      assert words == words[..n] + [words[n]];
      WordsOfJoin(words[..n]);
      JoinLast(words[..n], words[n]);
      if n == 0 {
        WordsGrow([], words[0]);
        assert [] + words[0] == words[0] && Words([]) == [] by { NoWords(); }
      } else {
        SpaceIsSpace();
        WordsOfSpace(Join(words[..n]));
        WordsGrow(Join(words[..n]) + " ", words[n]);
      }
    } else {
      NoWords();
    }
  }

  lemma NoWords()
    ensures Words([]) == []
  {
  }

  lemma SpaceIsSpace()
    ensures IsSpace(' ')
  {
  }

  /** Two texts count as the same exactly when they have the same words: only spacing is forgotten. */
  lemma SameExactlyInWords(s: string, t: string)
    ensures Collapse(s) == Collapse(t) <==> Words(s) == Words(t)
  {
    hide Words, Collapse;
    CollapseJoinsWords(s);
    CollapseJoinsWords(t);
    WordsAreWords(s);
    WordsAreWords(t);
    WordsOfJoin(Words(s));
    WordsOfJoin(Words(t));
  }

  // ----- trimming -----

  ghost predicate AllSpace(s: string) {
    forall i :: 0 <= i < |s| ==> IsSpace(s[i])
  }

  lemma {:induction false} TrimLeftCuts(s: string) returns (left: string)
    ensures s == left + TrimLeft(s) && AllSpace(left) && (TrimLeft(s) == [] || !IsSpace(TrimLeft(s)[0]))
  {
    if s != [] && IsSpace(s[0]) {
      left := TrimLeftCuts(s[1..]);
      left := [s[0]] + left;
    } else {
      left := [];
    }
  }

  lemma {:induction false} TrimRightCuts(s: string) returns (right: string)
    ensures s == TrimRight(s) + right && AllSpace(right)
    ensures TrimRight(s) == [] || (TrimRight(s)[0] == s[0] && !IsSpace(TrimRight(s)[|TrimRight(s)| - 1]))
  {
    if s != [] && IsSpace(s[|s| - 1]) {
      right := TrimRightCuts(s[..|s| - 1]);
      right := right + [s[|s| - 1]];
    } else {
      right := [];
    }
  }

  /** Trimming takes the white space at both ends and nothing else. */
  lemma TrimExactly(s: string) returns (left: string, right: string)
    ensures s == left + Trim(s) + right && AllSpace(left) && AllSpace(right)
    ensures Trim(s) == [] || (!IsSpace(Trim(s)[0]) && !IsSpace(Trim(s)[|Trim(s)| - 1]))
  {
    left := TrimLeftCuts(s);
    right := TrimRightCuts(TrimLeft(s));
    hide TrimLeft, TrimRight, IsSpace;
    assert left + (Trim(s) + right) == left + Trim(s) + right;
  }

  /** Collapsing once is collapsing for good, so spacing never changes a key twice. */
  lemma {:induction false} CollapseTwice(s: string)
    ensures Collapse(Collapse(s)) == Collapse(s)
    ensures Collapse(s) != [] ==> !IsSpace(Collapse(s)[|Collapse(s)| - 1])
  {
    if s != [] {
      var n := |s| - 1;
      var words := Collapse(s[..n]);
      CollapseTwice(s[..n]);
      if !IsSpace(s[n]) {
        CollapseAppend(words, s[n]);
        if n > 0 && IsSpace(s[n - 1]) && words != [] {
          assert (words + " " + [s[n]])[..|words| + 1] == words + " ";
          assert (words + " ")[..|words|] == words;
        }
      }
    }
  }

  lemma CollapseAppend(words: string, c: char)
    requires words != [] ==> !IsSpace(words[|words| - 1])
    requires !IsSpace(c)
    ensures Collapse(words + [c]) == Collapse(words) + [c]
  {
    assert (words + [c])[..|words|] == words;
  }
}
