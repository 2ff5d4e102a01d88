/** Pack metadata shared by the planner, the manifest and cold storage. */
module Packs {

  datatype Kind = Base | Delta | Compact

  /** One immutable pack of a stack; generations run from generationMin to generationMax. */
  datatype Pack = Pack(
    path: string,
    sha256: string,
    size: nat,
    level: nat,
    generationMin: nat,
    generationMax: nat,
    kind: Kind
  )

  datatype Option<+T> = None | Some(value: T)

  datatype Result<+T> = Ok(value: T) | Err(message: string)

  function TotalSize(packs: seq<Pack>): nat {
    if packs == [] then 0 else packs[0].size + TotalSize(packs[1..])
  }

  lemma {:induction false} TotalSizeAppend(a: seq<Pack>, b: seq<Pack>)
    ensures TotalSize(a + b) == TotalSize(a) + TotalSize(b)
    decreases |a|
  {
    if a == [] {
      assert a + b == b;
    } else {
      assert (a + b)[1..] == a[1..] + b;
      TotalSizeAppend(a[1..], b);
    }
  }
}
