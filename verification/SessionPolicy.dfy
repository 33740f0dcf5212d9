/** The session parameters of an application and the pure time arithmetic on a session
    (internal/domain/application.go, internal/domain/session.go). Instants and durations are in milliseconds. */
module SessionPolicy {
  const INT32_MAX := 0x7FFF_FFFF

  type Int32 = x: int | -INT32_MAX - 1 <= x <= INT32_MAX

  /** All six in seconds. */
  datatype Policy = Policy(
    idleTimeout: Int32, idleTimeoutMobile: Int32, maxLifetime: Int32,
    rotateInterval: Int32, extendInterval: Int32, tokenCacheTtl: Int32)
  {
    predicate Valid() {
      && idleTimeout > 0
      && idleTimeoutMobile >= 0
      && maxLifetime > 0
      && rotateInterval > 0
      && extendInterval > 0
      && tokenCacheTtl > 0
      && rotateInterval <= maxLifetime
      && extendInterval < idleTimeout
      && tokenCacheTtl <= idleTimeout
    }

    function IdleFor(mobile: bool): int {
      if mobile && idleTimeoutMobile > 0 then idleTimeoutMobile * 1000 else idleTimeout * 1000
    }
  }

  const MIN_ROTATE_GRACE := 15_000

  const EXTEND_LOCK_TTL := 10_000

  function Grace(p: Policy): int {
    if p.tokenCacheTtl * 1000 > MIN_ROTATE_GRACE then p.tokenCacheTtl * 1000 else MIN_ROTATE_GRACE
  }

  datatype Session = Session(
    id: nat, token: nat, user: nat, app: nat,
    firstAuthAt: int, issuedAt: int, lastExtendedAt: int, idleExpiresAt: int,
    mobile: bool, epoch: nat)
  {
    function MaxExpiresAt(p: Policy): int {
      firstAuthAt + p.maxLifetime * 1000
    }

    /** The instant from which RemainingAt is 0. */
    function ExpiresAt(p: Policy): int {
      if MaxExpiresAt(p) < idleExpiresAt then MaxExpiresAt(p) else idleExpiresAt
    }

    function RemainingAt(now: int, p: Policy): int {
      var idle := idleExpiresAt - now;
      var remain := if MaxExpiresAt(p) - now < idle then MaxExpiresAt(p) - now else idle;
      if remain <= 0 then 0 else remain
    }
  }

  function CacheTtl(remaining: int, p: Policy): int {
    if remaining < p.tokenCacheTtl * 1000 then remaining else p.tokenCacheTtl * 1000
  }
}
