/** The user-side operations of the CRUD layer: the levelling engine
    (experience and gold awards) and the profile update. Each works on a
    `User` object in place; committing to the database is not modelled. */
module UserCrud {
  import opened Wrappers
  import opened Progression
  import opened Models

  /** Credit `amount` experience points, then level up while the points held
      reach the current level's threshold (level * 100), carrying the rest.
      Nothing guards against a negative amount: it lowers the points held,
      below zero if large enough, and never lowers the level. */
  method AddExperience(user: User, amount: int)
    modifies user`experiencePoints, user`level
    ensures user.Progress() == Award(old(user.Progress()), amount)
    ensures user.experiencePoints < Threshold(user.level)
    ensures user.level >= old(user.level)
    ensures TotalXp(user.Progress()) == TotalXp(old(user.Progress())) + amount
    ensures user.gold == old(user.gold)
  {
    user.experiencePoints := user.experiencePoints + amount;
    var levelThreshold := user.level * XpPerLevel;
    while user.experiencePoints >= levelThreshold
      invariant levelThreshold == Threshold(user.level)
      invariant Settle(user.Progress()) == Award(old(user.Progress()), amount)
      decreases LevelDebt(user.level), user.experiencePoints
    {
      user.level := user.level + 1;
      user.experiencePoints := user.experiencePoints - levelThreshold;
      levelThreshold := user.level * XpPerLevel;
    }
  }

  /** Credit `amount` gold; nothing else about the user changes. */
  method AddGold(user: User, amount: int)
    modifies user`gold
    ensures user.gold == old(user.gold) + amount
    ensures user.Progress() == old(user.Progress())
  {
    user.gold := user.gold + amount;
  }

  /** The stored password hash after an update: a non-empty password in the
      payload is hashed and replaces it; otherwise it stays. */
  function HashedPasswordAfter(current: string, password: Patch<string>, hash: string -> string): (r: string)
    ensures password.Set? && password.value != "" ==> r == hash(password.value)
    ensures password.Unset? || password.value == "" ==> r == current
  {
    if password.Set? && password.value != "" then hash(password.value) else current
  }

  /** Copy the profile fields present in `update` onto the user. A password is
      never stored as given: a non-empty one goes through `hash` into the
      stored hash; an empty one is dropped. The game fields, the username,
      the flags and the id are not updatable through this payload. */
  method UpdateUser(user: User, update: UserUpdate, hash: string -> string)
    modifies user`firstName, user`lastName, user`email, user`hashedPassword
    ensures user.firstName == update.firstName.Over(old(user.firstName))
    ensures user.lastName == update.lastName.Over(old(user.lastName))
    ensures user.email == update.email.Over(old(user.email))
    ensures user.hashedPassword == HashedPasswordAfter(old(user.hashedPassword), update.password, hash)
    ensures user.hashedPassword == old(user.hashedPassword)
         || (update.password.Set? && user.hashedPassword == hash(update.password.value))
  {
    var hashed: Patch<string> := Unset;
    if update.password.Set? && update.password.value != "" {
      hashed := Set(hash(update.password.value));
    }
    if update.firstName.Set? {
      user.firstName := update.firstName.value;
    }
    if update.lastName.Set? {
      user.lastName := update.lastName.value;
    }
    if update.email.Set? {
      user.email := update.email.value;
    }
    if hashed.Set? {
      user.hashedPassword := hashed.value;
    }
  }
}
