/**
 * The password hasher behind `SecurityService` (`hashPassword`,
 * `comparePasswords`), kept abstract: any pair of functions for which a
 * password always matches its own hash.
 */
module Security {

  datatype Hasher = Hasher(hash: string -> string, compare: (string, string) -> bool)

  /** What bcrypt guarantees and the rest of the system relies on. */
  ghost predicate Sound(h: Hasher) {
    forall p :: h.compare(p, h.hash(p))
  }
}
