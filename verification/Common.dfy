// Types shared by every component of the model.
module Common {
  type byte = x: int | 0 <= x < 0x100

  type bytes = seq<byte>

  // SHA-1 stays uninterpreted: every component takes the hash as a parameter.
  type Hasher = bytes -> bytes

  datatype Option<+T> = None | Some(value: T)

  // What an operation returns, unless it indexes out of range.
  datatype Checked<+T> = Returns(value: T) | IndexPanic

  function Min(a: int, b: int): int {
    if a < b then a else b
  }

  function Zeros(n: nat): (r: bytes)
    ensures |r| == n
  {
    seq(n, _ => 0)
  }

  function Take<T>(s: seq<T>, n: nat): seq<T> {
    if n < |s| then s[..n] else s
  }

  function Without<T>(s: seq<T>, k: nat): seq<T>
    requires k < |s|
  {
    s[..k] + s[k + 1..]
  }

  // The bytes are the characters of the text.
  predicate Spells(b: bytes, text: string) {
    |b| == |text| && forall i :: 0 <= i < |b| ==> b[i] == text[i] as int
  }

  // The numbers below n.
  function Below(n: nat): (s: set<nat>)
    ensures |s| == n
    ensures forall i: nat :: i in s <==> i < n
  {
    if n == 0 then {} else Below(n - 1) + {n - 1}
  }

  // No element occurs at two positions.
  ghost predicate Distinct<T>(s: seq<T>) {
    forall i, j :: 0 <= i < j < |s| ==> s[i] != s[j]
  }
}
