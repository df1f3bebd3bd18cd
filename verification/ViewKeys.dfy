/**
 View keys of interactive sessions: the decimal length of the preempt key, the key
 itself and the decimal sequence number, separated by colons.
 */
module ViewKeys {

  function Digit(d: nat): char
    requires d < 10
  {
    "0123456789"[d]
  }

  /** The decimal rendering of a non-negative number. */
  function Decimal(n: nat): (s: string)
    ensures s != [] && forall i :: 0 <= i < |s| ==> s[i] != ':'
  {
    if n < 10 then [Digit(n)] else Decimal(n / 10) + [Digit(n % 10)]
  }

  function ViewKey(preemptKey: string, seqNo: nat): string {
    Decimal(|preemptKey|) + ":" + preemptKey + ":" + Decimal(seqNo)
  }

  lemma {:induction false} DecimalInjective(m: nat, n: nat)
    requires Decimal(m) == Decimal(n)
    ensures m == n
  {
    var s, t := Decimal(m), Decimal(n);
    if m >= 10 && n >= 10 {
      assert s[..|s| - 1] == Decimal(m / 10) && t[..|t| - 1] == Decimal(n / 10);
      assert s[|s| - 1] == Digit(m % 10) && t[|t| - 1] == Digit(n % 10);
      DecimalInjective(m / 10, n / 10);
    }
  }

  /** A colon-free prefix is determined by the first colon. */
  lemma PrefixAtColon(a: string, b: string, s: string, t: string)
    requires a + ":" + s == b + ":" + t
    requires forall i :: 0 <= i < |a| ==> a[i] != ':'
    requires forall i :: 0 <= i < |b| ==> b[i] != ':'
    ensures a == b && s == t
  {
    var u, v := a + ":" + s, b + ":" + t;
    assert forall i :: 0 <= i < |a| ==> u[i] == a[i];
    assert forall i :: 0 <= i < |b| ==> v[i] == b[i];
    assert u[|a|] == ':' && v[|b|] == ':';
    assert |a| == |b|;
    assert a == u[..|a|] && b == v[..|b|];
    assert s == u[|a| + 1..] && t == v[|b| + 1..];
  }

  /** The length prefix makes the key unambiguous even for preempt keys that contain colons or digits. */
  lemma ViewKeyInjective(k1: string, n1: nat, k2: string, n2: nat)
    requires ViewKey(k1, n1) == ViewKey(k2, n2)
    ensures k1 == k2 && n1 == n2
  {
    var r1, r2 := k1 + ":" + Decimal(n1), k2 + ":" + Decimal(n2);
    assert ViewKey(k1, n1) == Decimal(|k1|) + ":" + r1;
    assert ViewKey(k2, n2) == Decimal(|k2|) + ":" + r2;
    PrefixAtColon(Decimal(|k1|), Decimal(|k2|), r1, r2);
    DecimalInjective(|k1|, |k2|);
    assert k1 == r1[..|k1|] && k2 == r2[..|k2|];
    assert Decimal(n1) == r1[|k1| + 1..] && Decimal(n2) == r2[|k2| + 1..];
    DecimalInjective(n1, n2);
  }

  lemma ViewKeySample()
    ensures ViewKey("tab", 42) == "3:tab:42"
  {
    assert Decimal(3) == "3" && Decimal(4) == "4";
    assert Decimal(42) == Decimal(4) + [Digit(2)];
  }
}
