/** Shared by the other modules. */
module Common {

  datatype Option<+T> = None | Some(value: T)

  /** `iter().position(p)`: the first index that satisfies p, or the length. */
  function FirstIndex<T>(s: seq<T>, p: T -> bool): (pos: nat)
    ensures pos <= |s| && (pos < |s| ==> p(s[pos]))
    ensures forall i :: 0 <= i < pos ==> !p(s[i])
  {
    if s == [] || p(s[0]) then 0 else 1 + FirstIndex(s[1..], p)
  }

  function Flatten<T>(xss: seq<seq<T>>): seq<T> {
    if xss == [] then [] else Flatten(xss[..|xss| - 1]) + xss[|xss| - 1]
  }

  lemma {:induction false} FlattenCons<T>(xss: seq<seq<T>>)
    requires xss != []
    ensures Flatten(xss) == xss[0] + Flatten(xss[1..])
  {
    var n := |xss| - 1;
    if n == 0 {
      assert xss[..0] == [] && xss[1..] == [];
    } else {
      FlattenCons(xss[..n]);
      assert xss[..n][1..] == xss[1..][..n - 1] && xss[1..][n - 1] == xss[n];
      Associate(xss[0], Flatten(xss[..n][1..]), xss[n]);
    }
  }

  lemma Associate<T>(a: seq<T>, b: seq<T>, c: seq<T>)
    ensures (a + b) + c == a + (b + c)
  {
  }

  /** Division with remainder is unique. */
  lemma RemainderIs(x: int, n: int, q: int, r: int)
    requires n > 0 && x == n * q + r && 0 <= r < n
    ensures x % n == r
  {
    var d := x / n - q;
    assert n * d == r - x % n;
    assert -n < n * d < n;
    assert d == 0;
  }
}
