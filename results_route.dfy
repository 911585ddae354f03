/** The results route's directory-name decoder. The directory scan around it is I/O. */
module ResultsRoute {

  predicate DoubleDashAt(s: string, i: nat) {
    i + 1 < |s| && s[i] == '-' && s[i + 1] == '-'
  }

  ghost predicate HasDoubleDash(s: string) {
    exists i :: 0 <= i < |s| && DoubleDashAt(s, i)
  }

  /** `dirName.replace(/--/g, "/")`: a left-to-right, non-overlapping replacement of every "--". */
  function UnsafeModelDir(dirName: string): (r: string)
    ensures |r| <= |dirName|
    ensures r != [] && r[0] == '-' ==> dirName != [] && dirName[0] == '-'
    decreases |dirName|
  {
    if |dirName| >= 2 && dirName[0] == '-' && dirName[1] == '-' then "/" + UnsafeModelDir(dirName[2..])
    else if dirName == [] then []
    else [dirName[0]] + UnsafeModelDir(dirName[1..])
  }

  /** A name with no "--" is left as it is. */
  lemma {:induction false} UnsafeModelDirIdentity(dirName: string)
    requires !HasDoubleDash(dirName)
    ensures UnsafeModelDir(dirName) == dirName
    decreases |dirName|
  {
    if dirName != [] {
      assert !DoubleDashAt(dirName, 0);
      var rest := dirName[1..];
      assert !HasDoubleDash(rest) by {
        forall i | 0 <= i < |rest| ensures !DoubleDashAt(rest, i) {
          assert !DoubleDashAt(dirName, i + 1);
        }
      }
      UnsafeModelDirIdentity(rest);
    }
  }

  /** The decoded name never holds "--": every pair of dashes was replaced. */
  lemma {:induction false} UnsafeModelDirNoDoubleDash(dirName: string)
    ensures !HasDoubleDash(UnsafeModelDir(dirName))
    decreases |dirName|
  {
    var r := UnsafeModelDir(dirName);
    if |dirName| >= 2 && dirName[0] == '-' && dirName[1] == '-' {
      var t := UnsafeModelDir(dirName[2..]);
      UnsafeModelDirNoDoubleDash(dirName[2..]);
      assert r == "/" + t;
      forall i | 0 <= i < |r| ensures !DoubleDashAt(r, i) {
        if i > 0 { assert !DoubleDashAt(t, i - 1); }
      }
    } else if dirName != [] {
      var t := UnsafeModelDir(dirName[1..]);
      UnsafeModelDirNoDoubleDash(dirName[1..]);
      assert r == [dirName[0]] + t;
      forall i | 0 <= i < |r| ensures !DoubleDashAt(r, i) {
        if i > 0 { assert !DoubleDashAt(t, i - 1); }
      }
    }
  }

  function CountChar(s: string, c: char): nat
    decreases |s|
  {
    if s == [] then 0 else (if s[0] == c then 1 else 0) + CountChar(s[1..], c)
  }

  /** Each replacement shortens the name by one and adds one slash: the length lost is exactly
      the number of slashes gained. */
  lemma {:induction false} UnsafeModelDirLength(dirName: string)
    ensures |dirName| - |UnsafeModelDir(dirName)| == CountChar(UnsafeModelDir(dirName), '/') - CountChar(dirName, '/')
    decreases |dirName|
  {
    if |dirName| >= 2 && dirName[0] == '-' && dirName[1] == '-' {
      UnsafeModelDirLength(dirName[2..]);
      assert dirName[1..][1..] == dirName[2..];
    } else if dirName != [] {
      UnsafeModelDirLength(dirName[1..]);
    }
  }

  function Repeat(c: char, n: nat): (r: string)
    ensures |r| == n
    ensures forall k :: 0 <= k < n ==> r[k] == c
  {
    if n == 0 then [] else [c] + Repeat(c, n - 1)
  }

  /** A run of `k` dashes becomes ⌊k/2⌋ slashes followed by `k mod 2` dashes (`---` becomes `/-`). */
  lemma {:induction false} DashRun(k: nat, rest: string)
    requires rest == [] || rest[0] != '-'
    ensures UnsafeModelDir(Repeat('-', k) + rest) == Repeat('/', k / 2) + Repeat('-', k % 2) + UnsafeModelDir(rest)
    decreases k
  {
    if k >= 2 {
      DashRun(k - 2, rest);
      DashPairStep(k, rest);
    } else {
      DashRunShort(k, rest);
    }
  }

  /** Two leading dashes become one slash, and the rest is decoded on its own. */
  lemma DashPairStep(k: nat, rest: string)
    requires k >= 2
    requires UnsafeModelDir(Repeat('-', k - 2) + rest) ==
      Repeat('/', (k - 2) / 2) + Repeat('-', (k - 2) % 2) + UnsafeModelDir(rest)
    ensures UnsafeModelDir(Repeat('-', k) + rest) == Repeat('/', k / 2) + Repeat('-', k % 2) + UnsafeModelDir(rest)
  {
    DashPairHead(k, rest);
    HalfStep(k);
    RepeatCons('/', (k - 2) / 2);
  }

  lemma HalfStep(k: nat)
    requires k >= 2
    ensures k / 2 == (k - 2) / 2 + 1 && k % 2 == (k - 2) % 2
  {
  }

  lemma RepeatCons(c: char, n: nat)
    ensures Repeat(c, n + 1) == [c] + Repeat(c, n)
  {
  }

  lemma DashPairHead(k: nat, rest: string)
    requires k >= 2
    ensures UnsafeModelDir(Repeat('-', k) + rest) == "/" + UnsafeModelDir(Repeat('-', k - 2) + rest)
  {
    var s := Repeat('-', k) + rest;
    assert s[0] == '-' && s[1] == '-';
    assert s[2..] == Repeat('-', k - 2) + rest;
  }

  /** Zero dashes, or one dash not followed by another, are kept. */
  lemma DashRunShort(k: nat, rest: string)
    requires k < 2 && (rest == [] || rest[0] != '-')
    ensures UnsafeModelDir(Repeat('-', k) + rest) == Repeat('/', k / 2) + Repeat('-', k % 2) + UnsafeModelDir(rest)
  {
    if k == 1 {
      var s := Repeat('-', 1) + rest;
      assert s[1..] == rest;
      assert UnsafeModelDir(s) == [s[0]] + UnsafeModelDir(s[1..]);
    } else {
      assert Repeat('-', 0) + rest == rest;
    }
  }
}
