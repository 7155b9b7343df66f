/** The file names of the runs, as they are printed and as the directory scan reads
    them back. */
module LsmNames {
  import opened Decimals
  import opened Wrappers

  /** A decimal with zeros in front, at least six digits long. */
  function Padded(n: nat, width: nat): string
    decreases width
  {
    if width <= |Decimal(n)| then Decimal(n) else ['0'] + Padded(n, width - 1)
  }

  /** The file of a run: its id with at least six digits. */
  function NameOf(id: nat): string { Padded(id, 6) + ".sst" }

  /** How many digits a name starts with, up to a limit. */
  function Leading(s: string, limit: nat): (k: nat)
    ensures k <= |s| && k <= limit && forall i :: 0 <= i < k ==> IsDigit(s[i])
    ensures k < limit && k < |s| ==> !IsDigit(s[k])
  {
    if limit == 0 || s == "" || !IsDigit(s[0]) then 0 else 1 + Leading(s[1..], limit - 1)
  }

  /** The directory scan: up to six digits, whatever follows them. None if the name
      does not start with a digit. */
  function Scan(name: string): Option<nat> {
    var k := Leading(name, 6);
    if k == 0 then None else Some(NumberOf(name[..k]))
  }

  lemma {:induction false} PaddedValue(n: nat, width: nat)
    ensures var s := Padded(n, width);
      && (forall i :: 0 <= i < |s| ==> IsDigit(s[i])) && NumberOf(s) == n
      && |s| == if width <= |Decimal(n)| then |Decimal(n)| else width
    decreases width
  {
    DecimalValue(n);
    if width > |Decimal(n)| {
      PaddedValue(n, width - 1);
      ZeroInFront(Padded(n, width - 1));
    }
  }

  lemma {:induction false} ZeroInFront(s: string)
    ensures NumberOf(['0'] + s) == NumberOf(s)
  {
    if s == "" {
      assert ['0'] + s == ['0'] && ['0'][..0] == "";
    } else {
      ZeroInFront(s[..|s| - 1]);
      assert (['0'] + s)[..|s|] == ['0'] + s[..|s| - 1];
    }
  }

  lemma {:induction false} AllDigits(s: string, more: string, limit: nat)
    requires forall i :: 0 <= i < |s| ==> IsDigit(s[i])
    requires more == "" || !IsDigit(more[0])
    ensures Leading(s + more, limit) == if |s| <= limit then |s| else limit
  {
    if s == "" {
      assert s + more == more;
    } else if limit > 0 {
      AllDigits(s[1..], more, limit - 1);
      assert (s + more)[1..] == s[1..] + more;
    }
  }

  /** The first six digits of a number, or all of it. */
  function FirstSix(id: nat): (r: nat)
    ensures r == id <==> id < 1_000_000
    ensures r < 1_000_000
  {
    if id < 1_000_000 then id else FirstSix(id / 10)
  }

  lemma SixLong(n: nat)
    ensures |Decimal(n)| <= 6 <==> n < 1_000_000
  {
    DecimalLength(n, 6);
    assert Pow10(6) == 1_000_000;
  }

  lemma {:induction false} FirstDigits(id: nat)
    requires |Decimal(id)| >= 6
    ensures NumberOf(Decimal(id)[..6]) == FirstSix(id)
  {
    SixLong(id);
    if |Decimal(id)| > 6 {
      SixLong(id / 10);
      FirstDigits(id / 10);
      assert Decimal(id)[..6] == Decimal(id / 10)[..6];
    } else {
      DecimalValue(id);
      assert Decimal(id)[..6] == Decimal(id);
    }
  }

  /** Scanning the name of a run gives the first six digits of its id, so the id
      itself if and only if it has no more. */
  lemma ScanReads(id: nat)
    ensures Scan(NameOf(id)) == Some(FirstSix(id))
    ensures Scan(NameOf(id)) == Some(id) <==> id < 1_000_000
  {
    hide NumberOf, Decimal, Padded, Leading;
    var s := Padded(id, 6);
    PaddedValue(id, 6);
    SixLong(id);
    AllDigits(s, ".sst", 6);
    assert NameOf(id)[..6] == s[..6];
    if id < 1_000_000 {
      assert s[..6] == s;
    } else {
      PaddedLong(id);
      FirstDigits(id);
    }
  }

  lemma PaddedLong(n: nat)
    requires |Decimal(n)| >= 6
    ensures Padded(n, 6) == Decimal(n)
  {
  }

  /** The first run that is misread is the newest one: its scanned id sorts below
      that of the run before it. */
  lemma MillionIsMisread()
    ensures Scan(NameOf(999_999)) == Some(999_999) && Scan(NameOf(1_000_000)) == Some(100_000)
  {
    ScanReads(999_999);
    ScanReads(1_000_000);
    assert FirstSix(1_000_000) == FirstSix(100_000);
  }

  /** The name of a run below a million: six digits that spell its id, then ".sst". */
  lemma NameSpells(id: nat)
    requires id < 1_000_000
    ensures var s := NameOf(id); |s| == 10 && s[6..] == ".sst" && (forall i :: 0 <= i < 6 ==> '0' <= s[i] <= '9')
    ensures var s := NameOf(id);
      id == 100000 * (s[0] as int - 48) + 10000 * (s[1] as int - 48) + 1000 * (s[2] as int - 48)
        + 100 * (s[3] as int - 48) + 10 * (s[4] as int - 48) + (s[5] as int - 48)
  {
    hide Padded, Decimal;
    var d := Padded(id, 6);
    PaddedValue(id, 6);
    SixLong(id);
    assert NameOf(id)[..6] == d;
    SixDigits(d);
  }

  lemma SixDigits(d: string)
    requires |d| == 6 && forall i :: 0 <= i < 6 ==> IsDigit(d[i])
    ensures NumberOf(d) == 100000 * (d[0] as int - 48) + 10000 * (d[1] as int - 48) + 1000 * (d[2] as int - 48)
      + 100 * (d[3] as int - 48) + 10 * (d[4] as int - 48) + (d[5] as int - 48)
  {
    assert NumberOf(d[..5]) * 10 + (d[5] as int - 48) == NumberOf(d);
    assert d[..5][..4] == d[..4] && NumberOf(d[..4]) * 10 + (d[4] as int - 48) == NumberOf(d[..5]);
    assert d[..4][..3] == d[..3] && NumberOf(d[..3]) * 10 + (d[3] as int - 48) == NumberOf(d[..4]);
    assert d[..3][..2] == d[..2] && NumberOf(d[..2]) * 10 + (d[2] as int - 48) == NumberOf(d[..3]);
    assert d[..2][..1] == d[..1] && NumberOf(d[..1]) * 10 + (d[1] as int - 48) == NumberOf(d[..2]);
    assert d[..1][..0] == "" && NumberOf(d[..1]) == d[0] as int - 48;
  }
}
