/** ipchksum of openblt/netboot/netboot.c: the ones' complement checksum of section 3.1 of RFC 791. */
module Checksum {

  type Word = w: int | 0 <= w < 65536

  /** The plain sum. */
  function {:tailrecursion false} Sum(words: seq<Word>): (r: nat) {
    if words == [] then 0 else Sum(words[..|words| - 1]) + words[|words| - 1]
  }

  /** A sum folded into sixteen bits.  Zero is reached from zero alone. */
  function Folded(sum: nat): (r: nat)
    ensures r <= 0xFFFF && (r == 0 <==> sum == 0)
    ensures r % 0xFFFF == sum % 0xFFFF
  {
    if sum == 0 then 0 else (sum - 1) % 0xFFFF + 1
  }

  function Check(words: seq<Word>): (r: Word) { 0xFFFF - Folded(Sum(words)) }

  lemma RemainderIs(x: nat, q: nat, r: nat)
    requires x == q * 0xFFFF + r && r < 0xFFFF
    ensures x % 0xFFFF == r
  {
  }

  lemma FoldedAdd(sum: nat, w: Word)
    ensures Folded(sum + w) == if Folded(sum) + w > 0xFFFF then Folded(sum) + w - 0xFFFF else Folded(sum) + w
  {
    if sum > 0 {
      var q, r := (sum - 1) / 0xFFFF, (sum - 1) % 0xFFFF;
      if r + w < 0xFFFF {
        RemainderIs(sum + w - 1, q, r + w);
      } else {
        RemainderIs(sum + w - 1, q + 1, r + w - 0xFFFF);
      }
    } else if w > 0 {
      RemainderIs(w - 1, 0, w - 1);
    }
  }

  method Ipchksum(words: seq<Word>) returns (r: Word)
    ensures r == Check(words)
  {
    var sum: int := 0;
    var i := 0;
    while i < |words|
      invariant 0 <= i <= |words|
      invariant sum == Folded(Sum(words[..i]))
    {
      hide Folded;
      assert words[..i + 1][..i] == words[..i];
      FoldedAdd(Sum(words[..i]), words[i]);
      sum := sum + words[i];
      if sum > 0xFFFF {
        sum := sum - 0xFFFF;
      }
      i := i + 1;
    }
    assert words[..|words|] == words;
    r := 0xFFFF - sum;
  }

  lemma {:induction false} SumUpdate(words: seq<Word>, k: nat, v: Word)
    requires k < |words|
    ensures Sum(words[k := v]) == Sum(words) - words[k] + v
  {
    var n := |words| - 1;
    if k == n {
      assert words[k := v][..n] == words[..n];
    } else {
      assert words[k := v][..n] == words[..n][k := v];
      SumUpdate(words[..n], k, v);
    }
  }

  /** The receiver accepts exactly the headers whose sum is a positive multiple of 65535. */
  lemma AcceptedExactly(words: seq<Word>)
    ensures Check(words) == 0 <==> Sum(words) > 0 && Sum(words) % 0xFFFF == 0
  {
  }

  /** A header whose checksum field was zero when the checksum was taken, and then received it, is accepted. */
  lemma SealedAccepted(words: seq<Word>, k: nat)
    requires k < |words| && words[k] == 0
    ensures Check(words[k := Check(words)]) == 0
  {
    hide Folded;
    SumUpdate(words, k, Check(words));
    FoldedAdd(Sum(words), Check(words));
  }

  /** One changed word is noticed, unless it changed from one form of zero to the other. */
  lemma OneChangeNoticed(words: seq<Word>, k: nat, v: Word)
    requires k < |words| && Check(words) == 0 && v != words[k]
    ensures Check(words[k := v]) == 0 ==> {v, words[k]} == {0, 0xFFFF}
  {
    hide Folded;
    SumUpdate(words, k, v);
    AcceptedExactly(words);
    AcceptedExactly(words[k := v]);
    if Check(words[k := v]) == 0 {
      MultiplesApart(Sum(words), Sum(words[k := v]));
    }
  }

  lemma MultiplesApart(a: nat, b: nat)
    requires a % 0xFFFF == 0 && b % 0xFFFF == 0
    ensures a == b || a >= b + 0xFFFF || b >= a + 0xFFFF
  {
  }
}
