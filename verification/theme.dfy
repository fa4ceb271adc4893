/** The theme button: each press moves light to dark, dark to system, and
    anything else (system, or no theme yet) to light. */
module Theme {
  import opened Wrappers

  /** `cycleTheme`, given the current theme (None before one is known). */
  function Cycle(theme: Option<string>): (r: string)
    ensures r == "light" || r == "dark" || r == "system"
  {
    match theme
    case Some("light") => "dark"
    case Some("dark") => "system"
    case _ => "light"
  }

  /** Pressing the button `k` times. */
  function Presses(theme: Option<string>, k: nat): (r: Option<string>)
    ensures k > 0 ==> r.Some? && (r.value == "light" || r.value == "dark" || r.value == "system")
    ensures k == 0 ==> r == theme
    decreases k
  {
    if k == 0 then theme else Presses(Some(Cycle(theme)), k - 1)
  }

  /** The three themes follow one another in a cycle, and any other value
      moves to light. */
  lemma CycleOrder(other: Option<string>)
    requires other != Some("light") && other != Some("dark")
    ensures Cycle(Some("light")) == "dark"
    ensures Cycle(Some("dark")) == "system"
    ensures Cycle(other) == "light"
  {
  }

  /** From any of the three themes, every third press comes back to it. */
  lemma {:induction false} ThreePressesReturn(theme: string, k: nat)
    requires theme == "light" || theme == "dark" || theme == "system"
    ensures Presses(Some(theme), 3 * k) == Some(theme)
  {
    if k > 0 {
      assert Presses(Some(theme), 3 * k) == Presses(Presses(Some(theme), 3), 3 * (k - 1)) by {
        PressesAdd(Some(theme), 3, 3 * (k - 1));
      }
      ThreePressesReturn(theme, k - 1);
    }
  }

  /** Pressing `a` then `b` times is pressing `a + b` times. */
  lemma {:induction false} PressesAdd(theme: Option<string>, a: nat, b: nat)
    ensures Presses(theme, a + b) == Presses(Presses(theme, a), b)
    decreases a
  {
    if a > 0 {
      PressesAdd(Some(Cycle(theme)), a - 1, b);
    }
  }
}
