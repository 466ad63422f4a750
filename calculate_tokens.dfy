/**
 * `calculate_tokens` (bot/utils/calculate_tokens.py): outside private mode
 * the tokens a request used are priced in credits, per thousand tokens, and
 * the price is taken off the user's balance through `UserRepository.update`.
 * The arithmetic is exact here, where the source computes in floating point.
 */
module CalculateTokens {
  import opened Options
  import opened Tables
  import opened UserRepo

  /** Credits per thousand tokens (config.py). */
  const CreditsInputText: real := 2.0
  const CreditsOutputText: real := 8.0
  const CreditsInputImage: real := 10.0
  const CreditsOutputImage: real := 40.0

  /** The credits a request costs. */
  function Charge(inText: int, outText: int, inImage: int, outImage: int): (r: real)
    ensures inText >= 0 && outText >= 0 && inImage >= 0 && outImage >= 0 ==>
      r >= 0.0 && (r == 0.0 <==> inText == 0 && outText == 0 && inImage == 0 && outImage == 0)
  {
    (inText as real / 1000.0) * CreditsInputText + (outText as real / 1000.0) * CreditsOutputText
      + (inImage as real / 1000.0) * CreditsInputImage + (outImage as real / 1000.0) * CreditsOutputImage
  }

  /** More tokens of any kind never cost less. */
  lemma ChargeMonotone(a: int, b: int, c: int, d: int, a': int, b': int, c': int, d': int)
    requires a <= a' && b <= b' && c <= c' && d <= d'
    ensures Charge(a, b, c, d) <= Charge(a', b', c', d')
  {
  }

  /** Two requests cost what one request with all their tokens costs. */
  lemma ChargeAdditive(a: int, b: int, c: int, d: int, a': int, b': int, c': int, d': int)
    ensures Charge(a + a', b + b', c + c', d + d') == Charge(a, b, c, d) + Charge(a', b', c', d')
  {
  }

  /**
   * `calculate_tokens`: in private mode nothing changes; otherwise the
   * user's balance becomes the balance of the `user` object passed in minus
   * the charge, and nothing else changes.
   */
  method CalculateTokens(repo: UserRepository, user: User, typeUsage: string,
                         inText: int, outText: int, inImage: int, outImage: int)
    requires repo.db.Valid()
    modifies repo.db
    ensures repo.db.Valid()
    ensures typeUsage == "private" ==> unchanged(repo.db)
    ensures repo.db.OnlyChanged({Users}) && repo.db.users.Keys == old(repo.db.users.Keys)
    ensures forall k :: k in repo.db.users && k != user.telegramId ==> repo.db.users[k] == old(repo.db.users[k])
    ensures typeUsage != "private" && user.telegramId in repo.db.users ==>
      repo.db.users[user.telegramId] ==
        old(repo.db.users[user.telegramId]).(balance := user.balance - Charge(inText, outText, inImage, outImage))
  {
    if typeUsage != "private" {
      var credits := Charge(inText, outText, inImage, outImage);
      repo.Update(user, Some(credits), None);
    }
  }
}
