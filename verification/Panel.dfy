/** The values the panel and the node exchange (api/panel/user.go), and the name a user has on a node
    (common/format/user.go). */
module Panel {

  datatype Option<+T> = None | Some(value: T) {
    function GetOr(default: T): T {
      if Some? then value else default
    }
  }

  newtype byte = x: int | 0 <= x < 256

  datatype UserInfo = UserInfo(id: int, uuid: string, speedLimit: int, deviceLimit: int)

  datatype OnlineUser = OnlineUser(uid: int, ip: string)

  datatype UserTraffic = UserTraffic(uid: int, upload: int, download: int)

  function UserTag(tag: string, uuid: string): string {
    tag + "|" + uuid
  }

  /** On one node no two uuids share a name: it is the tag, a bar and the uuid. */
  lemma UserTagInjective(tag: string, u: string, v: string)
    ensures UserTag(tag, u) == tag + "|" + u
    ensures UserTag(tag, u) == UserTag(tag, v) <==> u == v
  {
    if UserTag(tag, u) == UserTag(tag, v) {
      assert u == UserTag(tag, u)[|tag| + 1..];
      assert v == UserTag(tag, v)[|tag| + 1..];
    }
  }

  /** Go's 64-bit arithmetic: the value a product keeps, and division towards zero. */
  const TWO63: int := 0x8000_0000_0000_0000

  function Int64(x: int): int {
    (x + TWO63) % (2 * TWO63) - TWO63
  }

  function Quotient(a: int, b: int): int
    requires b > 0
  {
    if a >= 0 then a / b else -(-a / b)
  }

  /** The 64-bit value differs from the number by a multiple of 2^64, and is the number if that fits. */
  lemma Int64Wraps(x: int)
    ensures -TWO63 <= Int64(x) < TWO63 && TWO63 == 9223372036854775808
    ensures exists k :: Int64(x) == x + k * 18446744073709551616
    ensures -TWO63 <= x < TWO63 ==> Int64(x) == x
  {
    var k := -((x + TWO63) / (2 * TWO63));
    assert Int64(x) == x + k * 18446744073709551616;
  }

  /** The quotient is cut off towards zero. */
  lemma QuotientTruncates(a: int, b: int)
    requires b > 0
    ensures a >= 0 ==> 0 <= a - Quotient(a, b) * b < b
    ensures a <= 0 ==> -b < a - Quotient(a, b) * b <= 0
  {
    if a < 0 {
      var q, r := -a / b, -a % b;
      assert -a == q * b + r;
    }
  }
}
