/** The orders the store compares by: strings lexicographically, as Go's `<` does, sorted-set
    entries by (score, member), and versions by (timestamp, node). */
module Order {

  /** `a < b` on strings: the first differing character decides, and a proper prefix is smaller. */
  predicate LexLess(a: string, b: string) {
    |b| > 0 && (|a| == 0 || a[0] < b[0] || (a[0] == b[0] && LexLess(a[1..], b[1..])))
  }

  /** Two strings agree up to some place, and there the first ends or has the smaller character. */
  ghost predicate DiffersAt(a: string, b: string, k: nat) {
    k <= |a| && k < |b| && a[..k] == b[..k] && (k == |a| || a[k] < b[k])
  }

  lemma {:induction false} LexLessIff(a: string, b: string)
    ensures LexLess(a, b) <==> exists k: nat :: DiffersAt(a, b, k)
  {
    if LexLess(a, b) {
      if |a| == 0 || a[0] < b[0] {
        assert a[..0] == b[..0];
        assert DiffersAt(a, b, 0);
      } else {
        LexLessIff(a[1..], b[1..]);
        var k: nat :| DiffersAt(a[1..], b[1..], k);
        assert [a[0]] + a[1..][..k] == a[..k + 1] && [b[0]] + b[1..][..k] == b[..k + 1];
        assert DiffersAt(a, b, k + 1);
      }
    }
    if k: nat :| DiffersAt(a, b, k) {
      if k > 0 {
        assert a[0] == a[..k][0] == b[..k][0] == b[0];
        assert a[1..][..k - 1] == a[..k][1..] && b[1..][..k - 1] == b[..k][1..];
        assert DiffersAt(a[1..], b[1..], k - 1);
        LexLessIff(a[1..], b[1..]);
      }
    }
  }

  lemma {:induction false} LexTotal(a: string, b: string)
    ensures LexLess(a, b) || a == b || LexLess(b, a)
    ensures !(LexLess(a, b) && LexLess(b, a)) && (a == b ==> !LexLess(a, b))
  {
    if |a| > 0 && |b| > 0 {
      LexTotal(a[1..], b[1..]);
      assert a[0] == b[0] && a[1..] == b[1..] ==> a == [b[0]] + b[1..] == b;
    }
  }

  lemma {:induction false} LexTransitive(a: string, b: string, c: string)
    requires LexLess(a, b) && LexLess(b, c)
    ensures LexLess(a, c)
  {
    if |a| > 0 && a[0] == b[0] == c[0] {
      LexTransitive(a[1..], b[1..], c[1..]);
    }
  }

  /** A sorted-set entry: what the skip list orders. */
  datatype Entry = Entry(score: real, member: string)

  predicate Less(a: Entry, b: Entry) {
    if a.score != b.score then a.score < b.score else LexLess(a.member, b.member)
  }

  lemma LessTotal(a: Entry, b: Entry)
    ensures Less(a, b) || a == b || Less(b, a)
    ensures !(Less(a, b) && Less(b, a)) && (a == b ==> !Less(a, b))
  {
    LexTotal(a.member, b.member);
  }

  lemma LessTransitive(a: Entry, b: Entry, c: Entry)
    requires Less(a, b) && Less(b, c)
    ensures Less(a, c)
  {
    if a.score == b.score == c.score {
      LexTransitive(a.member, b.member, c.member);
    }
  }

  /** The last-writer-wins version order: timestamp first, node ID on an exact tie. */
  predicate VersionLess(tsA: int, nodeA: string, tsB: int, nodeB: string) {
    if tsA != tsB then tsA < tsB else LexLess(nodeA, nodeB)
  }

  lemma VersionTotal(tsA: int, nodeA: string, tsB: int, nodeB: string)
    ensures VersionLess(tsA, nodeA, tsB, nodeB) || (tsA == tsB && nodeA == nodeB)
            || VersionLess(tsB, nodeB, tsA, nodeA)
    ensures !(VersionLess(tsA, nodeA, tsB, nodeB) && VersionLess(tsB, nodeB, tsA, nodeA))
    ensures tsA == tsB && nodeA == nodeB ==> !VersionLess(tsA, nodeA, tsB, nodeB)
  {
    LexTotal(nodeA, nodeB);
  }

  lemma VersionTransitive(tsA: int, nodeA: string, tsB: int, nodeB: string, tsC: int, nodeC: string)
    requires VersionLess(tsA, nodeA, tsB, nodeB) && VersionLess(tsB, nodeB, tsC, nodeC)
    ensures VersionLess(tsA, nodeA, tsC, nodeC)
  {
    if tsA == tsB == tsC {
      LexTransitive(nodeA, nodeB, nodeC);
    }
  }
}
