/**
 * The game rules of backend/gameLogic.js: drawing a secret, scoring a guess
 * in bulls and cows, and validating a guess before it is scored.
 */
module GameLogic {
  import opened Wrappers
  import opened Js

  predicate IsDigit(c: char) {
    '0' <= c <= '9'
  }

  predicate AllDigits(s: string) {
    forall i | 0 <= i < |s| :: IsDigit(s[i])
  }

  /** A secret of the game: `n` decimal digits, none repeated, the first not '0'. */
  predicate IsSecret(s: string, n: int) {
    |s| == n && n >= 1 && AllDigits(s) && s[0] != '0' && Distinct(s)
  }

  // ---------------------------------------------------------------- secret

  /**
   * How many candidates the pool holds when digit number `i` is drawn: nine
   * (1-9) for the leading digit, then zero plus the eight left over, one
   * fewer for every later digit.
   */
  function PoolSize(i: nat): nat {
    if i == 0 then 9 else if i <= 10 then 10 - i else 0
  }

  /** `picks[i]` is the value `Math.floor(Math.random() * pool.length)` took at step i. */
  predicate ValidPicks(picks: seq<nat>) {
    forall i | 0 <= i < |picks| :: picks[i] < PoolSize(i)
  }

  lemma PrependDistinct(x: char, s: string)
    requires Distinct(s) && x !in s
    ensures Distinct([x] + s)
  {
    var t := [x] + s;
    forall i, j | 0 <= i < j < |t| ensures t[i] != t[j] {
      if i == 0 { assert t[j] == s[j - 1]; } else { assert t[i] == s[i - 1] && t[j] == s[j - 1]; }
    }
  }

  /** Every character is one of 1-9. */
  predicate NonZeroDigits(s: string) {
    forall i | 0 <= i < |s| :: '1' <= s[i] <= '9'
  }

  /** Drawn digits and the pool are digit strings without repetition that share no digit. */
  predicate DrawState(digits: string, pool: string) {
    AllDigits(digits) && AllDigits(pool) && Distinct(digits) && Distinct(pool)
    && forall c | c in digits :: c !in pool
  }

  /** Moving the idx-th pool digit to the drawn digits keeps them apart and repetition-free. */
  lemma Draw(digits: string, pool: string, idx: nat)
    requires DrawState(digits, pool) && idx < |pool|
    ensures DrawState(digits + [pool[idx]], RemoveAt(pool, idx))
  {
    var d := pool[idx];
    RemoveAtDistinct(pool, idx);
    AppendDistinct(digits, d);
    var rest := RemoveAt(pool, idx);
    forall c | c in digits + [d] ensures c !in rest {
      assert c in digits || c == d;
    }
  }

  /** After the leading digit is drawn from 1-9, it and the pool 0 plus the other eight are apart and repetition-free. */
  lemma FirstDraw(k: nat)
    requires k < 9
    ensures DrawState(["123456789"[k]], "0" + RemoveAt("123456789", k))
  {
    var pool := "123456789";
    assert forall i | 0 <= i < |pool| :: pool[i] as int == '1' as int + i;
    assert NonZeroDigits(pool) && Distinct(pool);
    Draw([], pool, k);
    var rest := RemoveAt(pool, k);
    assert [] + [pool[k]] == [pool[k]];
    assert NonZeroDigits(rest);
    PrependDistinct('0', rest);
    var t := "0" + rest;
    forall c | c in [pool[k]] ensures c !in t {
      assert c != '0';
    }
  }

  /**
   * `generateSecret(digitLength)`: takes the picks[0]-th of 1..9 as leading
   * digit, splices it out of the pool, puts 0 in front of what is left and
   * then draws and splices one digit per step.
   */
  method GenerateSecret(digitLength: int, picks: seq<nat>) returns (secret: string)
    requires 1 <= digitLength <= 10
    requires |picks| >= digitLength && ValidPicks(picks)
    ensures IsSecret(secret, digitLength)
    ensures secret[0] == "123456789"[picks[0]]
  {
    var available := "123456789";
    var firstIdx := picks[0];
    FirstDraw(firstIdx);
    var digits := [available[firstIdx]];
    var remaining := "0" + RemoveAt(available, firstIdx);
    var i := 1;
    while i < digitLength
      invariant 1 <= i <= digitLength
      invariant |digits| == i && |remaining| == 10 - i
      invariant digits[0] == "123456789"[picks[0]]
      invariant DrawState(digits, remaining)
    {
      var idx := picks[i];
      assert idx < |remaining| by { assert picks[i] < PoolSize(i); }
      Draw(digits, remaining, idx);
      digits := digits + [remaining[idx]];
      remaining := RemoveAt(remaining, idx);
      i := i + 1;
    }
    secret := digits;
  }

  // ---------------------------------------------------------------- scoring

  /** Position i scores a bull: the guess has the secret's digit there. */
  predicate IsBull(secret: string, guess: string, i: nat)
    requires i < |secret|
  {
    i < |guess| && guess[i] == secret[i]
  }

  /**
   * Position i scores a cow: the guess's digit there is elsewhere in the
   * secret. A position past the end of the guess (`guess[i]` undefined)
   * scores nothing, as no digit secret contains the text "undefined".
   */
  predicate IsCow(secret: string, guess: string, i: nat)
    requires i < |secret|
  {
    i < |guess| && guess[i] != secret[i] && guess[i] in secret
  }

  /** Bulls among the first k positions of the secret. */
  function BullsUpTo(secret: string, guess: string, k: nat): nat
    requires k <= |secret|
  {
    if k == 0 then 0 else BullsUpTo(secret, guess, k - 1) + (if IsBull(secret, guess, k - 1) then 1 else 0)
  }

  /** Cows among the first k positions of the secret. */
  function CowsUpTo(secret: string, guess: string, k: nat): nat
    requires k <= |secret|
  {
    if k == 0 then 0 else CowsUpTo(secret, guess, k - 1) + (if IsCow(secret, guess, k - 1) then 1 else 0)
  }

  function Bulls(secret: string, guess: string): nat {
    BullsUpTo(secret, guess, |secret|)
  }

  function Cows(secret: string, guess: string): nat {
    CowsUpTo(secret, guess, |secret|)
  }

  /** `calculateBullsCows(secret, guess)`: one pass over the secret's positions. */
  method CalculateBullsCows(secret: string, guess: string) returns (bulls: nat, cows: nat)
    ensures bulls == Bulls(secret, guess) && cows == Cows(secret, guess)
    ensures bulls + cows <= |secret|
  {
    bulls, cows := 0, 0;
    var i := 0;
    while i < |secret|
      invariant 0 <= i <= |secret|
      invariant bulls == BullsUpTo(secret, guess, i)
      invariant cows == CowsUpTo(secret, guess, i)
    {
      if i < |guess| && guess[i] == secret[i] {
        bulls := bulls + 1;
      } else if i < |guess| && guess[i] in secret {
        cows := cows + 1;
      }
      i := i + 1;
    }
    ScoreBound(secret, guess, |secret|);
  }

  /** Every position scores at most once, so bulls and cows together never exceed the positions counted. */
  lemma {:induction false} ScoreBound(secret: string, guess: string, k: nat)
    requires k <= |secret|
    ensures BullsUpTo(secret, guess, k) + CowsUpTo(secret, guess, k) <= k
  {
    if k > 0 {
      ScoreBound(secret, guess, k - 1);
    }
  }

  /** The first k positions are all bulls exactly when the bull count there is k. */
  lemma {:induction false} AllBullsUpTo(secret: string, guess: string, k: nat)
    requires k <= |secret|
    ensures BullsUpTo(secret, guess, k) <= k
    ensures BullsUpTo(secret, guess, k) == k <==> forall i | 0 <= i < k :: IsBull(secret, guess, i)
  {
    if k > 0 {
      AllBullsUpTo(secret, guess, k - 1);
    }
  }

  /** For a guess as long as the secret, every digit is a bull exactly when the guess is the secret. */
  lemma BullsExactlyWhenEqual(secret: string, guess: string)
    requires |guess| == |secret|
    ensures Bulls(secret, guess) + Cows(secret, guess) <= |secret|
    ensures Bulls(secret, guess) == |secret| <==> guess == secret
  {
    ScoreBound(secret, guess, |secret|);
    AllBullsUpTo(secret, guess, |secret|);
    if Bulls(secret, guess) == |secret| {
      assert forall i | 0 <= i < |secret| :: guess[i] == secret[i] by {
        forall i | 0 <= i < |secret| ensures guess[i] == secret[i] {
          assert IsBull(secret, guess, i);
        }
      }
    }
  }

  /** Digits of `guess[..k]` that also occur in the secret. */
  function SharedUpTo(secret: string, guess: string, k: nat): set<char>
    requires k <= |guess|
  {
    set c | c in guess[..k] && c in secret
  }

  /** Extending the prefix by one digit adds that digit to the shared set exactly when the secret has it. */
  lemma SharedStep(secret: string, guess: string, k: nat)
    requires 0 < k <= |guess|
    ensures SharedUpTo(secret, guess, k)
      == SharedUpTo(secret, guess, k - 1) + (if guess[k - 1] in secret then {guess[k - 1]} else {})
  {
    assert guess[..k] == guess[..k - 1] + [guess[k - 1]];
  }

  /**
   * When neither string repeats a digit and they have the same length,
   * bulls plus cows is the number of digits they have in common, whatever
   * their positions.
   */
  lemma {:induction false} BullsPlusCowsAreSharedDigits(secret: string, guess: string, k: nat)
    requires |guess| == |secret| && Distinct(guess)
    requires k <= |secret|
    ensures BullsUpTo(secret, guess, k) + CowsUpTo(secret, guess, k) == |SharedUpTo(secret, guess, k)|
  {
    if k > 0 {
      BullsPlusCowsAreSharedDigits(secret, guess, k - 1);
      SharedStep(secret, guess, k);
      var c := guess[k - 1];
      var pre := guess[..k - 1];
      assert c !in SharedUpTo(secret, guess, k - 1) by {
        forall j | 0 <= j < |pre| ensures pre[j] != c {
          assert guess[j] != guess[k - 1];
        }
      }
      if c in secret {
        assert IsBull(secret, guess, k - 1) || IsCow(secret, guess, k - 1);
      } else {
        assert c != secret[k - 1];
      }
    }
  }

  /** Scoring of two worked examples: secret 5271 against guesses 1234 and 5271. */
  lemma WorkedExamples()
    ensures Bulls("5271", "1234") == 1 && Cows("5271", "1234") == 1
    ensures Bulls("5271", "5271") == 4 && Cows("5271", "5271") == 0
  {
    var secret := "5271";
    assert !IsBull(secret, "1234", 0) && IsCow(secret, "1234", 0);
    assert IsBull(secret, "1234", 1);
    assert !IsBull(secret, "1234", 2) && !IsCow(secret, "1234", 2);
    assert !IsBull(secret, "1234", 3) && !IsCow(secret, "1234", 3);
    assert BullsUpTo(secret, "1234", 4) == 1 && CowsUpTo(secret, "1234", 4) == 1;
    AllBullsUpTo(secret, secret, 4);
    ScoreBound(secret, secret, 4);
  }

  // ---------------------------------------------------------------- validation

  /** Why `validateGuess` refuses a guess; `Reason` gives the message sent back. */
  datatype GuessError = Required | WrongLength(digitLength: int) | NotDigits | NotUnique | AlreadyGuessed

  datatype Validation = Valid | Invalid(error: GuessError)

  function Reason(e: GuessError): string {
    match e
    case Required => "Guess is required."
    case WrongLength(n) => "Guess must be exactly " + IntToString(n) + " digits."
    case NotDigits => "Guess must contain only digits."
    case NotUnique => "All digits must be unique."
    case AlreadyGuessed => "You already guessed this number."
  }

  /** A guess the game can score: `n` digits, none repeated. */
  predicate WellFormedGuess(g: string, n: int) {
    |g| == n && AllDigits(g) && Distinct(g)
  }

  /**
   * `validateGuess(guess, digitLength, previousGuesses)`. `None` stands for
   * a missing guess or one that is not a string.
   */
  function ValidateGuess(guess: Option<string>, digitLength: int, previousGuesses: seq<string>): (v: Validation)
    ensures v == Valid <==> guess.Some? && guess.value != "" && WellFormedGuess(guess.value, digitLength) && guess.value !in previousGuesses
    ensures v == Invalid(Required) <==> guess.None? || guess.value == ""
    ensures v == Invalid(WrongLength(digitLength)) <==>
      guess.Some? && guess.value != "" && JsLength(guess.value) != digitLength
    ensures v == Invalid(NotDigits) <==>
      guess.Some? && guess.value != "" && JsLength(guess.value) == digitLength && !AllDigits(guess.value)
    ensures v == Invalid(NotUnique) <==>
      guess.Some? && guess.value != "" && |guess.value| == digitLength && AllDigits(guess.value) && !Distinct(guess.value)
    ensures v == Invalid(AlreadyGuessed) <==>
      guess.Some? && guess.value != "" && WellFormedGuess(guess.value, digitLength) && guess.value in previousGuesses
  {
    if guess.None? || guess.value == "" then Invalid(Required)
    else
      var g := guess.value;
      if JsLength(g) != digitLength then Invalid(WrongLength(digitLength))
      else if !AllDigits(g) then Invalid(NotDigits)
      else
        assert JsLength(g) == |g|;
        ElementsSize(g);
        if |Elements(g)| != digitLength then Invalid(NotUnique)
        else if g in previousGuesses then Invalid(AlreadyGuessed)
        else Valid
  }
}
