/** The cursor operations of a MongoDB query that the handlers rely on. */
module MongoQuery {

  function Abs(n: int): nat {
    if n < 0 then -n else n
  }

  /** `.limit(n)` of a cursor: 0 means no limit and a negative limit counts as
      its absolute value; the result is a prefix. */
  function Limit<T>(s: seq<T>, n: int): (t: seq<T>)
    ensures t <= s
    ensures n == 0 ==> t == s
    ensures n != 0 ==> |t| == if |s| < Abs(n) then |s| else Abs(n)
  {
    if n == 0 || |s| < Abs(n) then s else s[..Abs(n)]
  }

  /** `.skip(n)` of a cursor for `n >= 0`: the documents after the first `n`,
      none when there are fewer. */
  function Skip<T>(s: seq<T>, n: nat): (t: seq<T>)
    ensures |t| == if n <= |s| then |s| - n else 0
    ensures forall i :: 0 <= i < |t| ==> t[i] == s[n + i]
  {
    if n <= |s| then s[n..] else []
  }
}
