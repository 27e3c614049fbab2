/** Waiting for a lock file that only its creator may hold. */
module LockFile {

  const ATTEMPTS: nat := 200

  /** What an attempt to create the lock file comes to. */
  datatype Opening = Created | AlreadyThere | Refused

  datatype Acquired = Held(attempt: nat) | NeverFree | OpenFailed(attempt: nat)

  /** The lock file was there at each of the first k attempts. */
  ghost predicate BlockedUntil(opening: nat -> Opening, k: nat) {
    forall i: nat :: i < k ==> opening(i) == AlreadyThere
  }

  /** Some attempt creates the file, and those before it all found it there. */
  ghost predicate GetsLock(opening: nat -> Opening) {
    exists k: nat :: k < 200 && BlockedUntil(opening, k) && opening(k) == Created
  }

  /** Tries to create the lock file until an attempt succeeds or fails for another reason than its being there. */
  method Acquire(opening: nat -> Opening) returns (outcome: Acquired)
    ensures match outcome
            case Held(k) => k < 200 && BlockedUntil(opening, k) && opening(k) == Created
            case OpenFailed(k) => k < 200 && BlockedUntil(opening, k) && opening(k) == Refused
            case NeverFree => BlockedUntil(opening, 200)
    ensures outcome.Held? <==> GetsLock(opening)
    ensures outcome.NeverFree? <==> BlockedUntil(opening, 200)
  {
    for k := 0 to ATTEMPTS
      invariant BlockedUntil(opening, k)
    {
      match opening(k)
      case Created => return Held(k);
      case AlreadyThere =>
      case Refused => return OpenFailed(k);
    }
    return NeverFree;
  }
}
