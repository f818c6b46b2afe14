/**
 * The project search page (`ViewProject`): the multi-column sort of the
 * result table, the paged user search behind the member filter, the date
 * filter's validators, and the range label and row numbers.
 */
module ViewProject {
  import opened Common
  import opened Paging
  import opened Text
  import opened Users
  import Seqs
  import ApprovalPage

  // ------------------------------------------------------------ sort rules

  datatype Direction = Asc | Desc

  /** One entry of `orderBy`: a column and its direction. */
  datatype SortRule = SortRule(key: string, dir: Direction)

  function Flip(d: Direction): (r: Direction)
    ensures r != d
  {
    if d == Asc then Desc else Asc
  }

  /** `findIndex(col => col.key === key)`: the first rule for `key`, or -1. */
  function FindRule(rules: seq<SortRule>, key: string): (i: int)
    ensures -1 <= i < |rules|
    ensures i >= 0 ==> rules[i].key == key
    ensures forall j :: 0 <= j < |rules| && (i < 0 || j < i) ==> rules[j].key != key
  {
    if rules == [] then -1
    else if rules[0].key == key then 0
    else
      var j := FindRule(rules[1..], key);
      if j < 0 then -1 else j + 1
  }

  /** `handleSort`: a column already in the list flips its direction where it
      stands; a new column is appended in ascending order. */
  function HandleSort(rules: seq<SortRule>, key: string): (r: seq<SortRule>)
    ensures FindRule(rules, key) < 0 ==> r == rules + [SortRule(key, Asc)]
    ensures FindRule(rules, key) >= 0 ==> |r| == |rules|
    ensures FindRule(rules, key) >= 0 ==>
              forall j :: 0 <= j < |rules| ==>
                r[j] == (if j == FindRule(rules, key) then SortRule(key, Flip(rules[j].dir)) else rules[j])
  {
    var i := FindRule(rules, key);
    if i >= 0 then rules[i := SortRule(key, Flip(rules[i].dir))]
    else rules + [SortRule(key, Asc)]
  }

  predicate DistinctKeys(rules: seq<SortRule>) {
    forall i, j :: 0 <= i < j < |rules| ==> rules[i].key != rules[j].key
  }

  /** Every column appears at most once in the rule list, whatever is clicked,
      and the clicked column is in the list afterwards. */
  lemma HandleSortKeepsKeysDistinct(rules: seq<SortRule>, key: string)
    requires DistinctKeys(rules)
    ensures DistinctKeys(HandleSort(rules, key))
    ensures FindRule(HandleSort(rules, key), key) >= 0
  {
    var r := HandleSort(rules, key);
    if FindRule(rules, key) < 0 {
      assert r[|rules|].key == key;
    }
  }

  /** Clicking a listed column twice restores the rule list. */
  lemma HandleSortTwice(rules: seq<SortRule>, key: string)
    requires FindRule(rules, key) >= 0
    ensures HandleSort(HandleSort(rules, key), key) == rules
  {
    var i := FindRule(rules, key);
    var r := HandleSort(rules, key);
    assert FindRule(r, key) == i;
  }

  /** Clicking a new column twice leaves it at the end in descending order. */
  lemma HandleSortNewKeyTwice(rules: seq<SortRule>, key: string)
    requires FindRule(rules, key) < 0
    ensures HandleSort(HandleSort(rules, key), key) == rules + [SortRule(key, Desc)]
  {
    var r := rules + [SortRule(key, Asc)];
    assert r[|rules|].key == key;
    var i := FindRule(r, key);
    assert i == |rules|;
  }

  // ------------------------------------------------------------- comparator

  /** The UTF-16 code units of one character: itself below U+10000, and a
      high and a low surrogate above. */
  function Units(c: char): (r: seq<int>)
    ensures 1 <= |r| <= 2
  {
    var n := c as int;
    if n < 0x1_0000 then [n]
    else [0xD800 + (n - 0x1_0000) / 0x400, 0xDC00 + (n - 0x1_0000) % 0x400]
  }

  /** A string as JavaScript stores it: the code units of its characters. */
  function Utf16(s: string): seq<int>
    decreases |s|
  {
    if s == [] then [] else Units(s[0]) + Utf16(s[1..])
  }

  /** JavaScript's `<` on two strings: lexicographic by code unit, a proper
      prefix before the longer string. */
  predicate UnitsLess(u: seq<int>, v: seq<int>)
    decreases |u|
  {
    if u == [] then v != []
    else v != [] && (u[0] < v[0] || (u[0] == v[0] && UnitsLess(u[1..], v[1..])))
  }

  /** A rank of characters whose order is the order of their code units:
      characters below the surrogate range keep their place, those above
      U+FFFF follow them, and those from U+E000 to U+FFFF come last, since
      their single unit exceeds every high surrogate. */
  function UnitRank(c: char): int {
    var n := c as int;
    if n < 0xD800 then n
    else if n < 0x1_0000 then n + 0x11_0000
    else n
  }

  /** The comparator's `<` on two strings, one character at a time by
      `UnitRank`; `StrLessIsUnitOrder` shows it is JavaScript's `<`. */
  predicate StrLess(x: string, y: string)
    decreases |x|
  {
    if x == [] then y != []
    else y != [] && (UnitRank(x[0]) < UnitRank(y[0]) || (x[0] == y[0] && StrLess(x[1..], y[1..])))
  }

  /** Equal leading units are skipped by the unit order. */
  lemma {:induction false} SharedUnitsSkipped(p: seq<int>, u: seq<int>, v: seq<int>)
    ensures UnitsLess(p + u, p + v) == UnitsLess(u, v)
    decreases |p|
  {
    if p != [] {
      assert (p + u)[0] == p[0] == (p + v)[0];
      assert (p + u)[1..] == p[1..] + u && (p + v)[1..] == p[1..] + v;
      SharedUnitsSkipped(p[1..], u, v);
    } else {
      assert p + u == u && p + v == v;
    }
  }

  /** Two different characters are ordered by their units before anything
      that follows them is looked at, and that order is their rank's. */
  lemma FirstCharDecides(c: char, d: char, u: seq<int>, v: seq<int>)
    requires c != d
    ensures UnitsLess(Units(c) + u, Units(d) + v) == (UnitRank(c) < UnitRank(d))
  {
    var m, n := c as int, d as int;
    var p, q := Units(c) + u, Units(d) + v;
    assert p[0] == Units(c)[0] && q[0] == Units(d)[0];
    if m >= 0x1_0000 && n >= 0x1_0000 && p[0] == q[0] {
      assert p[1] == Units(c)[1] && q[1] == Units(d)[1];
      assert (m - 0x1_0000) % 0x400 != (n - 0x1_0000) % 0x400;
    }
  }

  /** The comparator's order is JavaScript's order of code units. */
  lemma {:induction false} StrLessIsUnitOrder(x: string, y: string)
    ensures StrLess(x, y) == UnitsLess(Utf16(x), Utf16(y))
    decreases |x|
  {
    if x != [] && y != [] {
      if x[0] == y[0] {
        SharedUnitsSkipped(Units(x[0]), Utf16(x[1..]), Utf16(y[1..]));
        StrLessIsUnitOrder(x[1..], y[1..]);
      } else {
        FirstCharDecides(x[0], y[0], Utf16(x[1..]), Utf16(y[1..]));
      }
    }
  }

  /** An emoji sorts before a full-width letter, although its code point is
      larger: its first unit is a high surrogate, below U+FF21. */
  lemma AstralBeforeHighPlane()
    ensures StrLess("\U{1F600}", "\U{FF21}") && !StrLess("\U{FF21}", "\U{1F600}")
  {
  }

  lemma {:induction false} StrLessIrreflexive(x: string)
    ensures !StrLess(x, x)
  {
    if x != [] {
      StrLessIrreflexive(x[1..]);
    }
  }

  /** Two different strings are ordered one way round and not the other. */
  lemma {:induction false} StrLessTotal(x: string, y: string)
    ensures x != y ==> StrLess(x, y) != StrLess(y, x)
    ensures x == y ==> !StrLess(x, y)
  {
    if x == y {
      StrLessIrreflexive(x);
    } else if x != [] && y != [] && x[0] == y[0] {
      assert x[1..] != y[1..] by {
        assert x == [x[0]] + x[1..] && y == [y[0]] + y[1..];
      }
      StrLessTotal(x[1..], y[1..]);
    }
  }

  lemma {:induction false} StrLessTransitive(x: string, y: string, z: string)
    requires StrLess(x, y) && StrLess(y, z)
    ensures StrLess(x, z)
  {
    if x != [] && x[0] == y[0] && y[0] == z[0] {
      StrLessTransitive(x[1..], y[1..], z[1..]);
    }
  }

  /** A table row: the sortable columns of a project, a missing key standing
      for a `null` or `undefined` value. */
  type Row = map<string, string>

  /** The comparator of `sortedRows`. The rules are tried in order. On each,
      two missing values end the comparison as equal, a missing value goes
      after a present one, and two present values that differ decide by `<`
      (mirrored for descending); equal values pass on to the next rule. */
  function Compare(a: Row, b: Row, rules: seq<SortRule>): (r: int)
    ensures -1 <= r <= 1
  {
    if rules == [] then 0
    else
      var k := rules[0].key;
      var asc := rules[0].dir == Asc;
      if k !in a && k !in b then 0
      else if k !in a then 1
      else if k !in b then -1
      else if StrLess(b[k], a[k]) then (if asc then 1 else -1)
      else if StrLess(a[k], b[k]) then (if asc then -1 else 1)
      else Compare(a, b, rules[1..])
  }

  /** A row with a value goes before a row without one, in either direction. */
  lemma NullsLast(a: Row, b: Row, rules: seq<SortRule>)
    requires rules != [] && rules[0].key in a && rules[0].key !in b
    ensures Compare(a, b, rules) == -1 && Compare(b, a, rules) == 1
  {
  }

  /** Two rows both missing the first rule's column compare equal, whatever
      the later rules would say. */
  lemma BothNullEndsComparison(a: Row, b: Row, rules: seq<SortRule>, more: seq<SortRule>)
    requires rules != [] && rules[0].key !in a && rules[0].key !in b
    ensures Compare(a, b, rules + more) == 0
  {
  }

  lemma {:induction false} CompareReflexive(a: Row, rules: seq<SortRule>)
    ensures Compare(a, a, rules) == 0
  {
    if rules != [] {
      var k := rules[0].key;
      if k in a {
        StrLessIrreflexive(a[k]);
      }
      CompareReflexive(a, rules[1..]);
    }
  }

  lemma {:induction false} CompareAntisymmetric(a: Row, b: Row, rules: seq<SortRule>)
    ensures Compare(a, b, rules) == -Compare(b, a, rules)
  {
    if rules != [] {
      var k := rules[0].key;
      if k in a && k in b {
        StrLessTotal(a[k], b[k]);
        CompareAntisymmetric(a, b, rules[1..]);
      }
    }
  }

  lemma {:induction false} CompareTransitive(a: Row, b: Row, c: Row, rules: seq<SortRule>)
    requires Compare(a, b, rules) <= 0 && Compare(b, c, rules) <= 0
    ensures Compare(a, c, rules) <= 0
  {
    if rules != [] {
      var k := rules[0].key;
      if k in a && k in b && k in c {
        var x, y, z := a[k], b[k], c[k];
        StrLessTotal(x, y);
        StrLessTotal(y, z);
        StrLessTotal(x, z);
        if StrLess(x, y) && StrLess(y, z) {
          StrLessTransitive(x, y, z);
        } else if StrLess(y, x) && StrLess(z, y) {
          StrLessTransitive(z, y, x);
        } else if x == y && y == z {
          CompareTransitive(a, b, c, rules[1..]);
        }
      }
    }
  }

  /** All rules with their directions reversed. */
  function FlipAll(rules: seq<SortRule>): (r: seq<SortRule>)
    ensures |r| == |rules|
    ensures forall k :: 0 <= k < |rules| ==> r[k].key == rules[k].key && r[k].dir == Flip(rules[k].dir)
  {
    seq(|rules|, k requires 0 <= k < |rules| => SortRule(rules[k].key, Flip(rules[k].dir)))
  }

  /** Descending is the mirror of ascending as long as no value is missing
      (missing values go last either way). */
  lemma {:induction false} FlipAllMirrors(a: Row, b: Row, rules: seq<SortRule>)
    requires forall k :: 0 <= k < |rules| ==> rules[k].key in a && rules[k].key in b
    ensures Compare(a, b, FlipAll(rules)) == -Compare(a, b, rules)
  {
    if rules != [] {
      assert FlipAll(rules)[1..] == FlipAll(rules[1..]);
      FlipAllMirrors(a, b, rules[1..]);
    }
  }

  // ------------------------------------------------------------------ sort

  predicate SortedBy(rows: seq<Row>, rules: seq<SortRule>) {
    forall i :: 0 <= i < |rows| - 1 ==> Compare(rows[i], rows[i + 1], rules) <= 0
  }

  lemma SortedCons(h: Row, t: seq<Row>, rules: seq<SortRule>)
    requires SortedBy(t, rules) && (t == [] || Compare(h, t[0], rules) <= 0)
    ensures SortedBy([h] + t, rules)
  {
    var r := [h] + t;
    forall i | 0 <= i < |r| - 1
      ensures Compare(r[i], r[i + 1], rules) <= 0
    {
      if i > 0 {
        assert r[i] == t[i - 1] && r[i + 1] == t[i];
      }
    }
  }

  lemma SortedTail(rows: seq<Row>, rules: seq<SortRule>)
    requires SortedBy(rows, rules) && rows != []
    ensures SortedBy(rows[1..], rules)
  {
    forall i | 0 <= i < |rows[1..]| - 1
      ensures Compare(rows[1..][i], rows[1..][i + 1], rules) <= 0
    {
      assert rows[1..][i] == rows[i + 1] && rows[1..][i + 1] == rows[i + 2];
    }
  }

  /** The head of a sorted list stays in front of whatever was inserted
      after it. */
  lemma InsertAfterHead(x: Row, rows: seq<Row>, t: seq<Row>, rules: seq<SortRule>)
    requires SortedBy(rows, rules) && rows != [] && Compare(x, rows[0], rules) > 0
    requires SortedBy(t, rules) && |t| > 0 && (t[0] == x || (|rows[1..]| > 0 && t[0] == rows[1..][0]))
    ensures SortedBy([rows[0]] + t, rules)
  {
    if t[0] == x {
      CompareAntisymmetric(x, rows[0], rules);
    } else {
      assert Compare(rows[0], rows[1], rules) <= 0;
    }
    SortedCons(rows[0], t, rules);
  }

  lemma ConsMultiset(rows: seq<Row>, t: seq<Row>, x: Row)
    requires rows != [] && multiset(t) == multiset(rows[1..]) + multiset{x}
    ensures multiset([rows[0]] + t) == multiset(rows) + multiset{x}
  {
    assert rows == [rows[0]] + rows[1..];
  }

  /** Putting the head back in front of the tail that `x` went into keeps
      the list sorted and holding the rows and `x`. */
  lemma InsertBehindHead(x: Row, rows: seq<Row>, t: seq<Row>, rules: seq<SortRule>)
    requires SortedBy(rows, rules) && rows != [] && Compare(x, rows[0], rules) > 0
    requires SortedBy(t, rules) && |t| > 0 && (t[0] == x || (|rows[1..]| > 0 && t[0] == rows[1..][0]))
    requires multiset(t) == multiset(rows[1..]) + multiset{x}
    ensures SortedBy([rows[0]] + t, rules)
    ensures multiset([rows[0]] + t) == multiset(rows) + multiset{x}
    ensures ([rows[0]] + t)[0] == rows[0]
  {
    InsertAfterHead(x, rows, t, rules);
    ConsMultiset(rows, t, x);
  }

  /** Inserts `x` before the first row it does not come after. */
  function Insert(x: Row, rows: seq<Row>, rules: seq<SortRule>): (r: seq<Row>)
    requires SortedBy(rows, rules)
    ensures SortedBy(r, rules)
    ensures multiset(r) == multiset(rows) + multiset{x}
    ensures |r| > 0 && (r[0] == x || (|rows| > 0 && r[0] == rows[0]))
  {
    if rows == [] || Compare(x, rows[0], rules) <= 0 then
      SortedCons(x, rows, rules);
      var r := [x] + rows;
      assert r[0] == x;
      r
    else
      SortedTail(rows, rules);
      var t := Insert(x, rows[1..], rules);
      InsertBehindHead(x, rows, t, rules);
      [rows[0]] + t
  }

  /** `sortedRows`: the result rows in the comparator's order, each row kept
      exactly as often as it occurs. Rows the comparator calls equal keep
      their original order. */
  function SortRows(rows: seq<Row>, rules: seq<SortRule>): (r: seq<Row>)
    ensures SortedBy(r, rules)
    ensures multiset(r) == multiset(rows)
  {
    if rows == [] then []
    else
      assert rows == [rows[0]] + rows[1..];
      Insert(rows[0], SortRows(rows[1..], rules), rules)
  }

  /** Sortedness of neighbours extends to every pair, by transitivity. */
  lemma {:induction false} SortedAllPairs(rows: seq<Row>, rules: seq<SortRule>, i: nat, j: nat)
    requires SortedBy(rows, rules) && i <= j < |rows|
    ensures Compare(rows[i], rows[j], rules) <= 0
    decreases j - i
  {
    if i == j {
      CompareReflexive(rows[i], rules);
    } else {
      SortedAllPairs(rows, rules, i + 1, j);
      CompareTransitive(rows[i], rows[i + 1], rows[j], rules);
    }
  }

  // ------------------------------------------------------------ user search

  /** The page size each request asks for. */
  const RequestedPageSize: nat := 10
  /** The per-page step the loop compares `totalItems` against. */
  const ContinueStep: nat := 8

  function NameHas(text: string): User -> bool {
    (u: User) => Contains(u.userName, text)
  }

  /** The users of a page whose `user_name` contains the text, case-sensitively. */
  function Matching(users: seq<User>, text: string): (r: seq<User>)
    ensures forall k :: 0 <= k < |r| ==> Contains(r[k].userName, text) && r[k] in users
    ensures forall k :: 0 <= k < |users| && Contains(users[k].userName, text) ==> users[k] in r
  {
    Seqs.Filter(users, NameHas(text))
  }

  /** What the search loop gathers from 1-based page `page` on, given what it
      has gathered so far. `responses[i]` is the body answering page `i + 1`
      (None when that request fails, which `searchUsers` turns into its
      fallback page); the loop stops where no answer is given. Reading the
      rows of a reply without `pageData` throws before anything is added,
      and reading the total of a reply without `pageInfo` throws after its
      matches were added; either ends the loop. */
  function SearchFrom(responses: seq<Option<UsersReply>>, text: string, page: nat, acc: seq<User>): seq<User>
    requires page >= 1
    decreases |responses| + 1 - page
  {
    if page > |responses| then acc
    else
      var reply := SearchUsersResult(responses[page - 1]);
      if reply.pageData.None? then acc
      else
        var acc' := acc + Matching(reply.pageData.value, text);
        if reply.pageInfo.Some? && reply.pageInfo.value.totalItems > page * ContinueStep then
          SearchFrom(responses, text, page + 1, acc')
        else acc'
  }

  /** A failed request yields the fallback page, which has no users and a
      total of 0: the search stops there with nothing added. */
  lemma FailedRequestEndsSearch(responses: seq<Option<UsersReply>>, text: string, page: nat, acc: seq<User>)
    requires 1 <= page <= |responses| && responses[page - 1].None?
    ensures SearchFrom(responses, text, page, acc) == acc
  {
    assert Matching([], text) == [];
  }

  /** `handleSearchUsers`: an empty text leaves the shown users as they were.
      Otherwise the list is emptied and pages 1, 2, ... are requested; each
      page adds its users whose name contains the text, and the loop goes on
      while `totalItems > page * 8` and reading the reply does not throw. */
  method SearchUsers(shown: seq<User>, text: string, responses: seq<Option<UsersReply>>) returns (found: seq<User>)
    ensures text == "" ==> found == shown
    ensures text != "" ==> found == SearchFrom(responses, text, 1, [])
    ensures text != "" ==> forall k :: 0 <= k < |found| ==> Contains(found[k].userName, text)
  {
    if text == "" {
      return shown;
    }
    var page := 1;
    var more := true;
    found := [];
    while more
      invariant 1 <= page <= |responses| + 1
      invariant more ==> SearchFrom(responses, text, page, found) == SearchFrom(responses, text, 1, [])
      invariant !more ==> found == SearchFrom(responses, text, 1, [])
      invariant forall k :: 0 <= k < |found| ==> Contains(found[k].userName, text)
      decreases more, |responses| + 1 - page
    {
      if page > |responses| {
        more := false;
      } else {
        var reply := SearchUsersResult(responses[page - 1]);
        if reply.pageData.None? {
          more := false;
        } else {
          found := found + Matching(reply.pageData.value, text);
          if reply.pageInfo.Some? && reply.pageInfo.value.totalItems > page * ContinueStep {
            page := page + 1;
          } else {
            more := false;
          }
        }
      }
    }
  }

  /** Page `p` (1-based) of a fixed user list served `RequestedPageSize` at a time. */
  function Served(all: seq<User>, p: nat): (r: seq<User>)
    requires p >= 1
    ensures |r| <= RequestedPageSize
  {
    all[Min((p - 1) * RequestedPageSize, |all|)..Min(p * RequestedPageSize, |all|)]
  }

  /** An answer to page `p` holding its slice of `all` and the size of `all`. */
  predicate AnswersPage(answer: Option<UsersReply>, all: seq<User>, p: nat)
    requires p >= 1
  {
    answer.Some? && answer.value.pageData == Some(Served(all, p))
    && answer.value.pageInfo.Some? && answer.value.pageInfo.value.totalItems == |all|
  }

  /** A server that answers every request with the right slice of one list. */
  predicate ConsistentServer(responses: seq<Option<UsersReply>>, all: seq<User>) {
    forall i :: 0 <= i < |responses| ==> AnswersPage(responses[i], all, i + 1)
  }

  /** `j` steps of the loop never reach past `j` pages: a total within
      `n * 8` with `n <= j` lies within the first `j` pages of 10. */
  lemma StepWithinPage(j: nat, n: nat)
    requires n <= j
    ensures n * ContinueStep <= j * RequestedPageSize
  {
  }

  /** Matching two adjacent slices is matching their union. */
  lemma MatchingSplit(all: seq<User>, lo: nat, hi: nat, text: string)
    requires lo <= hi <= |all|
    ensures Matching(all[..lo], text) + Matching(all[lo..hi], text) == Matching(all[..hi], text)
  {
    assert all[..lo] + all[lo..hi] == all[..hi];
    Seqs.FilterAppend(all[..lo], all[lo..hi], NameHas(text));
  }

  /** One round of the search against a consistent server: page `page` adds
      the matches of its slice, and the loop goes on exactly when the total
      exceeds `page * 8`. */
  lemma SearchStep(responses: seq<Option<UsersReply>>, all: seq<User>, text: string, page: nat)
    requires ConsistentServer(responses, all) && 1 <= page <= |responses|
    ensures var lo := Min((page - 1) * RequestedPageSize, |all|);
            var hi := Min(page * RequestedPageSize, |all|);
            SearchFrom(responses, text, page, Matching(all[..lo], text))
            == if |all| > page * ContinueStep then SearchFrom(responses, text, page + 1, Matching(all[..hi], text))
               else Matching(all[..hi], text)
  {
    var lo := Min((page - 1) * RequestedPageSize, |all|);
    var hi := Min(page * RequestedPageSize, |all|);
    assert AnswersPage(responses[page - 1], all, page);
    MatchingSplit(all, lo, hi, text);
  }

  /** Past the last answer the search stops, and by then every page has
      been read. */
  lemma SearchPastAnswers(responses: seq<Option<UsersReply>>, all: seq<User>, text: string, page: nat)
    requires |all| <= ContinueStep * |responses| && page > |responses|
    ensures SearchFrom(responses, text, page, Matching(all[..Min((page - 1) * RequestedPageSize, |all|)], text))
            == Matching(all, text)
  {
    StepWithinPage(page - 1, |responses|);
    assert all[..Min((page - 1) * RequestedPageSize, |all|)] == all;
  }

  lemma {:induction false} SearchFromConsistent(responses: seq<Option<UsersReply>>, all: seq<User>, text: string, page: nat)
    requires ConsistentServer(responses, all) && |all| <= ContinueStep * |responses|
    requires page == 1 || (page - 1) * ContinueStep < |all|
    requires page >= 1
    ensures SearchFrom(responses, text, page, Matching(all[..Min((page - 1) * RequestedPageSize, |all|)], text))
            == Matching(all, text)
    decreases |responses| + 1 - page
  {
    var lo := Min((page - 1) * RequestedPageSize, |all|);
    if page > |responses| {
      SearchPastAnswers(responses, all, text, page);
    } else {
      var hi := Min(page * RequestedPageSize, |all|);
      SearchStep(responses, all, text, page);
      if |all| > page * ContinueStep {
        assert Min((page + 1 - 1) * RequestedPageSize, |all|) == hi;
        SearchFromConsistent(responses, all, text, page + 1);
      } else {
        StepWithinPage(page, page);
        assert all[..hi] == all;
      }
    }
  }

  /** Against a server that pages one fixed list, the search finds every
      matching user, in list order and each once: comparing `totalItems`
      with steps of 8 on pages of 10 may cost extra requests but never stops
      early, provided answers for enough pages are given. */
  lemma SearchFindsEveryMatch(responses: seq<Option<UsersReply>>, all: seq<User>, text: string)
    requires ConsistentServer(responses, all) && |all| <= ContinueStep * |responses|
    ensures SearchFrom(responses, text, 1, []) == Seqs.Filter(all, NameHas(text))
  {
    assert all[..0] == [];
    SearchFromConsistent(responses, all, text, 1);
  }

  // ------------------------------------------------------------- date filter

  /** The start-date field: wrong only when both dates are set and the start
      is after the end. */
  function StartDateOk(start: Option<int>, end: Option<int>): (r: bool)
    ensures start.None? || end.None? ==> r
  {
    !(end.Some? && start.Some? && start.value > end.value)
  }

  /** The end-date field: wrong only when both dates are set and the end is
      before the start. */
  function EndDateOk(end: Option<int>, start: Option<int>): (r: bool)
    ensures start.None? || end.None? ==> r
  {
    !(start.Some? && end.Some? && end.value < start.value)
  }

  /** The two fields reject exactly the same pairs of dates: the ones that
      form a reversed range. */
  lemma DateFieldsAgree(start: Option<int>, end: Option<int>)
    ensures StartDateOk(start, end) == EndDateOk(end, start)
    ensures !StartDateOk(start, end) <==> start.Some? && end.Some? && end.value < start.value
  {
  }

  // ------------------------------------------------------- label and rows

  /** The page size of the result table. */
  const ResultPageSize: nat := 10

  /** The "from-to of total results" heading for 1-based page `cur`. */
  function RangeLabel(cur: int, total: nat): (r: (int, int))
    ensures r.0 <= total && r.1 <= total
  {
    (Min(cur * ResultPageSize - 9, total), Min(cur * ResultPageSize, total))
  }

  /** The number shown in the first column of row `index` of page `cur`. */
  function RowNumber(cur: int, index: nat): (n: int)
    ensures cur >= 1 ==> n >= 1
  {
    (cur - 1) * ResultPageSize + index + 1
  }

  /** On a page that holds results the heading agrees with the approver
      table's label for the same 0-based page, and every row number on the
      page lies between its two ends, the last row carrying the "to" number. */
  lemma RangeLabelSpansRows(cur: int, total: nat, index: nat)
    requires cur >= 1 && (cur - 1) * ResultPageSize < total
    ensures RangeLabel(cur, total) == ApprovalPage.Label(cur - 1, ResultPageSize, total)
    ensures var (from, to) := RangeLabel(cur, total);
            index < RowsOnPage(cur - 1, ResultPageSize, total) ==> from <= RowNumber(cur, index) <= to
    ensures RowNumber(cur, RowsOnPage(cur - 1, ResultPageSize, total) - 1) == RangeLabel(cur, total).1
  {
  }
}
