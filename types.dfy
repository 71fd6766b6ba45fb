/** Machine types and opaque values shared by the timer model. */
module Types {

  /** The C `int32_t` and `uint32_t` ranges. */
  const MaxInt32: int := 0x7FFF_FFFF
  type int32 = x: int | -0x8000_0000 <= x <= MaxInt32
  type uint32 = x: int | 0 <= x < 0x1_0000_0000

  /** `RDXK_TIMER_ID_INVALID`: the id returned when no timer is allocated or found. */
  const TimerIdInvalid: int32 := -1

  /** A NULL entry pointer: list links and the list head are slot indices, -1 for NULL. */
  const Null: int := -1

  /** The cast `(uint32_t)timer_id` applied before the range check. */
  function AsUint32(x: int32): (r: uint32)
    ensures 0 <= x ==> r == x
    ensures x < 0 ==> r > MaxInt32
  {
    if x < 0 then x + 0x1_0000_0000 else x
  }

  /** An absolute expiration time; the timestamp collaborator orders them totally. */
  type Timestamp = int

  /** A handler's code address. The module stores and returns it and never calls it. */
  type Handler = nat

  /** The caller's opaque context pointer (0 is NULL, which is allowed). */
  type Context = nat

  datatype Option<+T> = None | Some(value: T)
}
