/** Stream entries, their order, and what is kept of a log. */
module StreamLog {
  import opened Order
  import opened Wrappers
  import opened Numerals

  datatype Entry = Entry(id: string, timestamp: int, sequence: int, node: string, fields: map<string, string>)

  function EntryId(timestamp: int, sequence: int, node: string): string {
    Decimal(timestamp) + "-" + (Decimal(sequence) + "-" + node)
  }

  /** An identifier is printed as "%d-%d-%s". */
  lemma EntryIdPrinted(t: int, s: int, n: string)
    ensures EntryId(t, s, n) == Decimal(t) + "-" + Decimal(s) + "-" + n
  {
    assert (Decimal(t) + "-" + Decimal(s) + "-") + n == Decimal(t) + "-" + (Decimal(s) + "-" + n);
  }

  /** An identifier determines the timestamp, the sequence number and the node. */
  lemma EntryIdInjective(t: int, s: int, n: string, t': int, s': int, n': string)
    requires EntryId(t, s, n) == EntryId(t', s', n')
    ensures t == t' && s == s' && n == n'
  {
    DecimalRead(t, Decimal(s) + "-" + n, t', Decimal(s') + "-" + n');
    DecimalRead(s, n, s', n');
  }

  /** It is never one of the marks "0", "-" and "" of a range. */
  lemma EntryIdIsNoMark(t: int, s: int, n: string)
    ensures |EntryId(t, s, n)| >= 3
  {
  }

  /** The order of a merged log. */
  predicate Before(a: Entry, b: Entry) {
    if a.timestamp != b.timestamp then a.timestamp < b.timestamp
    else if a.sequence != b.sequence then a.sequence < b.sequence
    else LexLess(a.node, b.node)
  }

  lemma BeforeTransitive(a: Entry, b: Entry, c: Entry)
    requires Before(a, b) && Before(b, c)
    ensures Before(a, c)
  {
    if a.timestamp == b.timestamp == c.timestamp && a.sequence == b.sequence == c.sequence {
      LexTransitive(a.node, b.node, c.node);
    }
  }

  lemma BeforeTotal(a: Entry, b: Entry)
    ensures !(Before(a, b) && Before(b, a)) && !Before(a, a)
    ensures Before(a, b) || Before(b, a) || (a.timestamp == b.timestamp && a.sequence == b.sequence && a.node == b.node)
  {
    LexTotal(a.node, b.node);
    LexTotal(a.node, a.node);
  }

  /** Not being before is transitive too, ties included. */
  lemma NotBeforeTransitive(a: Entry, b: Entry, c: Entry)
    requires !Before(b, a) && !Before(c, b)
    ensures !Before(c, a)
  {
    BeforeTotal(a, b);
    if Before(c, a) && Before(a, b) { BeforeTransitive(c, a, b); }
  }

  // ----- the n last entries of a set -----

  /** No two entries tie. */
  ghost predicate Untied(s: set<Entry>) {
    forall a, b :: a in s && b in s && a != b ==> Before(a, b) || Before(b, a)
  }

  ghost function Above(s: set<Entry>, e: Entry): set<Entry> {
    set x | x in s && Before(e, x)
  }

  /** The n last entries: those with fewer than n after them. */
  ghost function Kept(n: nat, s: set<Entry>): set<Entry> {
    set e | e in s && |Above(s, e)| < n
  }

  lemma {:induction false} First(s: set<Entry>) returns (m: Entry)
    requires s != {} && Untied(s)
    ensures m in s && forall x :: x in s && x != m ==> Before(m, x)
    decreases |s|
  {
    m :| m in s;
    if s != {m} {
      var f := First(s - {m});
      if Before(f, m) {
        m := f;
      } else {
        forall x | x in s && x != m ensures Before(m, x) {
          if x != f { BeforeTransitive(m, f, x); }
        }
      }
    }
  }

  lemma {:induction false} KeptMany(n: nat, s: set<Entry>)
    requires Untied(s) && n <= |s|
    ensures |Kept(n, s)| >= n
    decreases |s|
  {
    if |s| == n {
      KeptAll(n, s);
    } else {
      var m := First(s);
      KeptMany(n, s - {m});
      forall e | e in s - {m} ensures Above(s - {m}, e) == Above(s, e) { BeforeTotal(m, e); }
      assert Kept(n, s - {m}) <= Kept(n, s);
      SubsetCard(Kept(n, s - {m}), Kept(n, s));
    }
  }

  lemma KeptAll(n: nat, s: set<Entry>)
    requires |s| <= n
    ensures Kept(n, s) == s
  {
    forall e | e in s ensures |Above(s, e)| < n {
      BeforeTotal(e, e);
      SubsetCard(Above(s, e), s);
    }
  }

  /** An entry that is dropped has n kept ones after it. */
  lemma DroppedHasKeptAbove(n: nat, s: set<Entry>, x: Entry)
    requires Untied(s) && x in s && x !in Kept(n, s)
    ensures |Above(Kept(n, s), x)| >= n
  {
    var t := Above(s, x);
    KeptMany(n, t);
    forall e | e in t ensures Above(t, e) == Above(s, e) {
      forall y | y in Above(s, e) ensures y in t { BeforeTransitive(x, e, y); }
    }
    assert Kept(n, t) <= Above(Kept(n, s), x);
    SubsetCard(Kept(n, t), Above(Kept(n, s), x));
  }

  /** What was dropped from one log earlier does not matter: keeping the n last of a union is the same
      whether or not one side had been cut down to its n last before. */
  lemma KeptUnion(n: nat, a: set<Entry>, b: set<Entry>)
    requires Untied(a + b)
    ensures Kept(n, a + Kept(n, b)) == Kept(n, a + b)
  {
    var all, cut := a + b, a + Kept(n, b);
    assert cut <= all && Untied(b) && Untied(cut);
    forall e | e in Kept(n, all) ensures e in Kept(n, cut) {
      SubsetCard(Above(cut, e), Above(all, e));
      SubsetCard(Above(b, e), Above(all, e));
    }
    forall e | e in Kept(n, cut) ensures e in Kept(n, all) {
      if Above(all, e) != Above(cut, e) {
        var x :| x in Above(all, e) && x !in Above(cut, e);
        DroppedHasKeptAbove(n, b, x);
        forall y | y in Above(Kept(n, b), x) ensures y in Above(cut, e) { BeforeTransitive(e, x, y); }
        SubsetCard(Above(Kept(n, b), x), Above(cut, e));
      }
    }
  }

  lemma KeptCard(n: nat, s: set<Entry>)
    requires Untied(s)
    ensures |Kept(n, s)| <= n
    decreases |s|
  {
    if |s| > n {
      if Kept(n, s) != {} {
        // the first kept entry has every other kept entry after it
        assert Untied(Kept(n, s));
        var m := First(Kept(n, s));
        SubsetCard(Kept(n, s) - {m}, Above(s, m));
      }
    } else {
      KeptAll(n, s);
    }
  }

  // ----- logs in order -----

  ghost function Elements(s: seq<Entry>): set<Entry> {
    set e | e in s
  }

  ghost predicate Ordered(s: seq<Entry>) {
    forall i, j {:trigger Before(s[i], s[j])} {:trigger s[i], s[j]} :: 0 <= i < j < |s| ==> Before(s[i], s[j])
  }

  /** No entry belongs before an earlier one. */
  ghost predicate Ascending(s: seq<Entry>) {
    forall i, j :: 0 <= i < j < |s| ==> !Before(s[j], s[i])
  }

  /** Timestamps do not fall, at one timestamp the sequence numbers do not, and at one of those the nodes do not. */
  lemma AscendingMeaning(s: seq<Entry>)
    ensures Ascending(s) <==> forall i, j :: 0 <= i < j < |s| ==>
              || s[i].timestamp < s[j].timestamp
              || (s[i].timestamp == s[j].timestamp && s[i].sequence < s[j].sequence)
              || (s[i].timestamp == s[j].timestamp && s[i].sequence == s[j].sequence
                  && !LexLess(s[j].node, s[i].node))
  {
  }

  function LastOf(n: nat, s: seq<Entry>): seq<Entry> {
    if |s| <= n then s else s[|s| - n..]
  }

  lemma {:induction false} ElementsCard(s: seq<Entry>)
    requires forall i, j :: 0 <= i < j < |s| ==> s[i] != s[j]
    ensures |Elements(s)| == |s|
  {
    if s != [] {
      ElementsCard(s[1..]);
      assert Elements(s) == {s[0]} + Elements(s[1..]);
    }
  }

  lemma OrderedDistinct(s: seq<Entry>)
    requires Ordered(s)
    ensures forall i, j :: 0 <= i < j < |s| ==> s[i] != s[j]
    ensures Untied(Elements(s)) && |Elements(s)| == |s|
  {
    forall i, j | 0 <= i < j < |s| ensures s[i] != s[j] { BeforeTotal(s[i], s[j]); }
    ElementsCard(s);
  }

  /** Cutting a log in order keeps its n last entries. */
  lemma LastIsKept(n: nat, s: seq<Entry>)
    requires Ordered(s)
    ensures Elements(LastOf(n, s)) == Kept(n, Elements(s)) && Ordered(LastOf(n, s))
  {
    forall i | 0 <= i < |s| ensures |Above(Elements(s), s[i])| == |s| - 1 - i {
      forall j | 0 <= j < |s| ensures Before(s[i], s[j]) <==> i < j { BeforeTotal(s[i], s[j]); }
      assert forall j :: i < j < |s| ==> s[i + 1..][j - i - 1] == s[j];
      assert Above(Elements(s), s[i]) == Elements(s[i + 1..]);
      OrderedDistinct(s[i + 1..]);
    }
    forall e | e in Kept(n, Elements(s)) ensures e in LastOf(n, s) {
      var i :| 0 <= i < |s| && s[i] == e;
      assert |s| > n ==> LastOf(n, s)[i - (|s| - n)] == e;
    }
  }

  /** A log in order is determined by its entries. */
  lemma {:induction false} OrderedUnique(s: seq<Entry>, t: seq<Entry>)
    requires Ordered(s) && Ordered(t) && Elements(s) == Elements(t)
    ensures s == t
  {
    OrderedDistinct(s);
    OrderedDistinct(t);
    if s != [] {
      assert s[0] in Elements(t) && t[0] in Elements(s);
      var i :| 0 <= i < |t| && t[i] == s[0];
      var j :| 0 <= j < |s| && s[j] == t[0];
      BeforeTotal(s[0], t[0]);
      assert s[0] == t[0];
      assert Elements(s[1..]) == Elements(s) - {s[0]} && Elements(t[1..]) == Elements(t) - {t[0]};
      OrderedUnique(s[1..], t[1..]);
      assert s == [s[0]] + s[1..] && t == [t[0]] + t[1..];
    }
  }
}
