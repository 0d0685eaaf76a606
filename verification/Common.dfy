/** Error numbers, and how many completions a queue may be asked for. */
module Common {
  const EIO := 5
  const EAGAIN := 11
  const ENOMEM := 12
  const EBUSY := 16
  const EINVAL := 22
  const ENOSYS := 38
  const ENOTSUP := 95

  /** The status code field of a completion has eight bits: a code and what is left of it differ by a multiple of 256,
      so that positive codes that fit are kept, and a negative one is taken from 256. */
  function StatusCode(err: int): (sc: nat)
    ensures sc < 256 && (err - sc) % 256 == 0
    ensures 0 <= err < 256 ==> sc == err
    ensures -256 < err < 0 ==> sc == 256 + err
  {
    err % 256
  }

  function Min(a: nat, b: nat): (m: nat)
    ensures m <= a && m <= b && (m == a || m == b)
  {
    if a < b then a else b
  }

  /** At most `max` of the outstanding commands; zero asks for all of them. */
  function Clamp(max: nat, outstanding: nat): (k: nat)
    ensures k <= outstanding && (max != 0 ==> k <= max)
    ensures k == outstanding || (max != 0 && k == max)
  {
    if max == 0 then outstanding else Min(max, outstanding)
  }
}
