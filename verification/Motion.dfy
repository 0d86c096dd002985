/** The arithmetic of the sprite animation of lab 5: where the sprite is and
    where it was last drawn, tick by tick. */
module Motion {
  import opened Words

  /** Position on the moving axis, position last drawn, and the interrupt
      count. */
  datatype Motion = Motion(pos: nat, drawn: nat, total: nat)

  /** One timer tick of `xpm_move`: a step that would pass the target is cut
      short and drawn at once; any other step is drawn only on every
      `frames`-th interrupt. */
  function Advance(a: Motion, target: nat, speed: nat, frames: nat): Motion
    requires frames > 0
  {
    var total := a.total + 1;
    if a.pos + speed > target then Motion(target, target, total)
    else Motion(a.pos + speed, if Rem(total, frames) == 0 then a.pos + speed else a.drawn, total)
  }

  function After(a: Motion, target: nat, speed: nat, frames: nat, n: nat): Motion
    requires frames > 0
  {
    if n == 0 then a else Advance(After(a, target, speed, frames, n - 1), target, speed, frames)
  }

  /** The least number of steps of `speed` that cover `dist`. */
  function StepsTo(dist: nat, speed: nat): nat
    requires speed > 0
  {
    Quo(dist + speed - 1, speed)
  }

  lemma StepsToLaw(dist: nat, speed: nat, n: nat)
    requires speed > 0
    ensures n < StepsTo(dist, speed) <==> n * speed < dist
  {
    var s := StepsTo(dist, speed);
    QuoRem(dist + speed - 1, speed);
    hide Quo, Rem;
    if n < s {
      MulMono(n + 1, s, speed);
    } else {
      MulMono(s, n, speed);
    }
  }

  function Min(a: nat, b: nat): nat { if a <= b then a else b }

  /** Ticks since the sprite was last drawn, in a run of `n` ticks. */
  function Since(total: nat, frames: nat, n: nat): nat
    requires frames > 0
  {
    Min(n, Rem(total + n, frames))
  }

  lemma SinceStep(total: nat, frames: nat, n: nat)
    requires frames > 0
    ensures Since(total, frames, n + 1) ==
            if Rem(total + n + 1, frames) == 0 then 0 else Since(total, frames, n) + 1
    ensures Since(total, frames, n) <= frames - 1 && Since(total, frames, n) <= n
  {
    RemStep(total + n, frames);
    hide Rem;
  }

  lemma RemStep(a: nat, d: nat)
    requires d > 0
    ensures Rem(a + 1, d) == if Rem(a, d) + 1 == d then 0 else Rem(a, d) + 1
  {
    QuoRem(a, d);
    var q, r := Quo(a, d), Rem(a, d);
    hide Quo, Rem;
    if r + 1 == d {
      DivWindow(a + 1, d, q + 1);
    } else {
      DivWindow(a + 1, d, q);
    }
  }

  /** Before the last step the sprite has made full steps, and it was drawn
      `Since` steps ago. */
  lemma {:induction false} Underway(start: nat, total: nat, target: nat, speed: nat, frames: nat, n: nat)
    requires frames > 0 && speed > 0 && start + n * speed <= target
    ensures After(Motion(start, start, total), target, speed, frames, n) ==
            Motion(start + n * speed, start + (n - Since(total, frames, n)) * speed, total + n)
  {
    SinceStep(total, frames, n);
    if n > 0 {
      assert (n - 1) * speed + speed == n * speed;
      Underway(start, total, target, speed, frames, n - 1);
      SinceStep(total, frames, n - 1);
      hide Rem, Since;
    }
  }

  /** The animation law.  In any run of at most the necessary ticks the sprite
      never overshoots, arrives exactly on the last of them, and lags by at most
      `frames - 1` steps.  It ends up drawn at the target exactly when the last
      step was cut short or fell on a frame. */
  lemma AnimationLaw(start: nat, total: nat, target: nat, speed: nat, frames: nat, n: nat)
    requires frames > 0 && speed > 0 && start < target && n <= StepsTo(target - start, speed)
    ensures var a := After(Motion(start, start, total), target, speed, frames, n);
            && a.total == total + n
            && a.pos == Min(start + n * speed, target)
            && (a.pos == target <==> n == StepsTo(target - start, speed))
            && start <= a.drawn <= a.pos <= a.drawn + speed * (frames - 1)
            && (n == StepsTo(target - start, speed) ==>
                 (a.drawn == target <==> start + n * speed != target || Rem(total + n, frames) == 0))
  {
    var dist := target - start;
    StepsToLaw(dist, speed, n);
    var since := Since(total, frames, n);
    SinceStep(total, frames, n);
    if start + n * speed <= target {
      Underway(start, total, target, speed, frames, n);
      Lag(since, frames, speed, n);
    } else {
      StepsToLaw(dist, speed, n - 1);
      assert (n - 1) * speed + speed == n * speed;
      Underway(start, total, target, speed, frames, n - 1);
      MulMono(0, frames - 1, speed);
    }
    hide Rem, StepsTo;
  }

  lemma Lag(since: nat, frames: nat, speed: nat, n: nat)
    requires since <= frames - 1 && since <= n
    ensures (n - since) * speed == n * speed - since * speed
    ensures 0 <= since * speed <= speed * (frames - 1) && since * speed <= n * speed
    ensures since > 0 && speed > 0 ==> since * speed > 0
  {
    MulMono(since, frames - 1, speed);
    MulMono(0, since, speed);
    MulMono(since, n, speed);
    if since > 0 { MulMono(1, since, speed); }
  }
}
