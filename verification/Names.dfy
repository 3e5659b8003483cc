/** The file names a transaction uses, and how leftovers are told from user files. */
module Names {
  import opened Journal

  const MARKER := ".cutmachine-transaction"

  function Temporary(path: string, nonce: string): string {
    path + nonce + ".tmp"
  }

  function Backup(path: string, nonce: string): string {
    path + nonce + ".bak"
  }

  predicate OccursAt(s: string, pattern: string, i: int) {
    0 <= i && i + |pattern| <= |s| && s[i..i + |pattern|] == pattern
  }

  /** The last index at or below k where the pattern occurs, or -1. */
  function RFind(s: string, pattern: string, k: int): (r: int)
    ensures r == -1 || (0 <= r <= k && OccursAt(s, pattern, r))
    ensures forall i :: r < i <= k ==> !OccursAt(s, pattern, i)
    decreases k + 1
  {
    if k < 0 then -1 else if OccursAt(s, pattern, k) then k else RFind(s, pattern, k - 1)
  }

  predicate IsTransactionLeftover(filename: string) {
    var marker := RFind(filename, NONCE_HEAD, |filename|);
    if marker < 0 then false
    else
      var suffix := filename[marker + 12..];
      && |suffix| == 30
      && suffix[26] == '.'
      && (forall index :: 0 <= index < 26 ==> IsAlnum(suffix[index]))
      && (suffix[27..] == "tmp" || suffix[27..] == "bak")
  }

  function FirstSlash(path: string): (n: nat)
    ensures n <= |path|
    ensures forall i :: 0 <= i < n ==> path[i] != '/'
    ensures n < |path| ==> path[n] == '/'
  {
    if path == [] || path[0] == '/' then 0 else 1 + FirstSlash(path[1..])
  }

  /** The leftover test on the last component of a path. */
  predicate IsLeftover(path: string)
    decreases |path|
  {
    var n := FirstSlash(path);
    if n < |path| then IsLeftover(path[n + 1..]) else IsTransactionLeftover(path)
  }

  /** The transaction directory itself and its Timelines folder. */
  predicate InScannedDirectory(path: string) {
    var n := FirstSlash(path);
    n == |path| || (path[..n] == "Timelines" && FirstSlash(path[n + 1..]) == |path| - n - 1)
  }

  /** What the sweep is for: a leftover in the transaction directory or in its Timelines folder. */
  ghost predicate IsSwept(path: string) {
    exists name: string {:trigger IsTransactionLeftover(name)} ::
      '/' !in name && IsTransactionLeftover(name) && (path == name || path == "Timelines/" + name)
  }

  lemma {:induction false} SlashesBefore(path: string)
    ensures '/' !in path <==> FirstSlash(path) == |path|
  {
    if path != [] && path[0] != '/' {
      SlashesBefore(path[1..]);
      assert path == [path[0]] + path[1..];
    }
  }

  /** What lies directly in a folder, and the place of the first slash on the way there. */
  lemma SplitAt(path: string, folder: string, name: string)
    requires '/' !in folder && path == folder + "/" + name
    ensures FirstSlash(path) == |folder| && path[..|folder|] == folder && path[|folder| + 1..] == name
  {
    var n := FirstSlash(path);
    assert path[|folder|] == '/' && path[..|folder|] == folder;
    assert forall i :: 0 <= i < |folder| ==> path[i] == folder[i];
  }

  /** The two directories, without their search for slashes. */
  lemma ScannedIff(path: string)
    ensures InScannedDirectory(path) <==>
            '/' !in path || exists name: string {:trigger "Timelines/" + name} :: '/' !in name && path == "Timelines/" + name
  {
    var n := FirstSlash(path);
    SlashesBefore(path);
    if n < |path| && InScannedDirectory(path) {
      var name := path[n + 1..];
      SlashesBefore(name);
      assert path == path[..n] + [path[n]] + name;
      assert path == "Timelines/" + name;
    }
    forall name | '/' !in name && path == "Timelines/" + name
      ensures InScannedDirectory(path)
    {
      assert path == "Timelines" + "/" + name;
      SplitAt(path, "Timelines", name);
      SlashesBefore(name);
    }
  }

  lemma SweptIff(path: string)
    ensures IsSwept(path) <==> InScannedDirectory(path) && IsLeftover(path)
  {
    ScannedIff(path);
    SlashesBefore(path);
    forall name | '/' !in name && path == "Timelines/" + name
      ensures IsLeftover(path) <==> IsTransactionLeftover(name)
    {
      assert path == "Timelines" + "/" + name;
      SplitAt(path, "Timelines", name);
      SlashesBefore(name);
    }
  }

  /** A path a user's file can have: neither the marker nor a leftover. */
  predicate IsUser(path: string) {
    path != MARKER && !IsLeftover(path)
  }

  // ---- What the scan recognises ---------------------------------------------

  ghost predicate IsExtension(s: string) {
    s == ".tmp" || s == ".bak"
  }

  ghost predicate Shape(name: string) {
    var n := |name|;
    n >= 42 && ValidNonce(name[n - 42..n - 4]) && IsExtension(name[n - 4..])
  }

  lemma ShapeHasNo(name: string, c: char)
    requires Shape(name) && (c == '/' || c == '-')
    ensures forall i :: |name| - 30 <= i < |name| ==> name[i] != c
    ensures c == '/' ==> forall i :: |name| - 42 <= i < |name| ==> name[i] != c
  {
    var n := |name|;
    var nonce, ext := name[n - 42..n - 4], name[n - 4..];
    forall i | n - 42 <= i < n ensures i >= n - 30 || c == '/' ==> name[i] != c {
      if i >= n - 4 {
        assert name[i] == ext[i - (n - 4)];
      } else {
        assert name[i] == nonce[i - (n - 42)];
        if i < n - 30 {
          assert nonce[i - (n - 42)] == nonce[..12][i - (n - 42)];
        }
      }
    }
  }

  lemma HeadEndsInDash(s: string, i: int)
    requires OccursAt(s, NONCE_HEAD, i)
    ensures s[i + 11] == '-'
  {
  }

  /** The backward search for the nonce head lands on the nonce of every name of the right shape. */
  lemma LeftoverIsShape(name: string)
    ensures IsTransactionLeftover(name) <==> Shape(name)
  {
    var n := |name|;
    var marker := RFind(name, NONCE_HEAD, n);
    if Shape(name) {
      ShapeHasNo(name, '-');
      var at := n - 42;
      var nonce, ext := name[at..n - 4], name[n - 4..];
      assert name[at..at + 12] == nonce[..12] == NONCE_HEAD;
      assert OccursAt(name, NONCE_HEAD, at);
      HeadEndsInDash(name, marker);
      assert marker == at;
      var suffix := name[marker + 12..];
      assert forall i :: 0 <= i < 26 ==> suffix[i] == nonce[12 + i];
      assert suffix[26] == ext[0];
      assert suffix[27..] == ext[1..];
    }
    if IsTransactionLeftover(name) {
      var suffix := name[marker + 12..];
      assert marker == n - 42;
      var nonce, ext := name[n - 42..n - 4], name[n - 4..];
      assert nonce[..12] == name[marker..marker + 12] == NONCE_HEAD;
      assert forall i :: 12 <= i < 38 ==> nonce[i] == suffix[i - 12];
      assert ext == [suffix[26]] + suffix[27..];
    }
  }

  /** The shape is that of the last component. */
  lemma ShapeOfRest(path: string, n: nat, rest: string)
    requires n < |path| && path[n] == '/' && rest == path[n + 1..]
    ensures Shape(path) <==> Shape(rest)
  {
    var r, p := |rest|, |path|;
    if r < 42 {
      if Shape(path) {
        ShapeHasNo(path, '/');
      }
    } else {
      assert rest[r - 42..r - 4] == path[p - 42..p - 4] && rest[r - 4..] == path[p - 4..];
    }
  }

  lemma {:induction false} LeftoverPath(path: string)
    ensures IsLeftover(path) <==> Shape(path)
    decreases |path|
  {
    var n := FirstSlash(path);
    if n < |path| {
      LeftoverPath(path[n + 1..]);
      ShapeOfRest(path, n, path[n + 1..]);
    } else {
      LeftoverIsShape(path);
    }
  }

  /** The nonce of a leftover name. */
  ghost function NonceOf(path: string): string {
    if |path| < 42 then "" else path[|path| - 42..|path| - 4]
  }

  lemma OwnNames(path: string, nonce: string)
    requires ValidNonce(nonce)
    ensures IsLeftover(Temporary(path, nonce)) && IsLeftover(Backup(path, nonce))
    ensures NonceOf(Temporary(path, nonce)) == nonce && NonceOf(Backup(path, nonce)) == nonce
    ensures Temporary(path, nonce) != MARKER && Backup(path, nonce) != MARKER
  {
    var t, b := Temporary(path, nonce), Backup(path, nonce);
    var n := |path| + 42;
    assert t[n - 42..n - 4] == nonce && t[n - 4..] == ".tmp";
    assert b[n - 42..n - 4] == nonce && b[n - 4..] == ".bak";
    LeftoverPath(t);
    LeftoverPath(b);
    assert |MARKER| == 23;
  }

  lemma NamesDiffer(p: string, q: string, nonce: string)
    ensures Temporary(p, nonce) != Backup(q, nonce)
    ensures p != q ==> Temporary(p, nonce) != Temporary(q, nonce) && Backup(p, nonce) != Backup(q, nonce)
  {
    var t, b := Temporary(p, nonce), Backup(q, nonce);
    assert t[|t| - 1] == 'p';
    assert b[|b| - 1] == 'k';
    if p != q {
      assert Temporary(p, nonce)[..|p|] == p && Temporary(q, nonce)[..|q|] == q;
      assert Backup(p, nonce)[..|p|] == p && Backup(q, nonce)[..|q|] == q;
    }
  }
}
