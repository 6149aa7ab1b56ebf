/** The theme switcher (apps/client/src/components/ui/theme-switcher.tsx). */
module ThemeSwitcher {

  datatype Theme = Light | Dark | System
  datatype Icon = Sun | Moon | Monitor

  /** The cycle order the button walks through. */
  const Cycle: seq<Theme> := [Light, Dark, System]

  /** Where a theme stands in the cycle. */
  function Position(theme: Theme): (i: nat)
    ensures i < |Cycle| && Cycle[i] == theme
  {
    match theme
    case Light => 0
    case Dark => 1
    case System => 2
  }

  /** The theme `cycleTheme` sets: the next one in the cycle, wrapping from system to light. */
  function NextTheme(theme: Theme): (next: Theme)
    ensures next == Cycle[(Position(theme) + 1) % |Cycle|]
  {
    if theme == Light then Dark
    else if theme == Dark then System
    else Light
  }

  /** `getIcon`: the sun for light, the moon for dark, the monitor otherwise. */
  function IconFor(theme: Theme): (icon: Icon)
    ensures icon == Sun <==> theme == Light
    ensures icon == Moon <==> theme == Dark
    ensures icon == Monitor <==> theme !in {Light, Dark}
  {
    if theme == Light then Sun
    else if theme == Dark then Moon
    else Monitor
  }

  /** Three presses bring every theme back, and one press always changes it. */
  lemma CycleHasPeriodThree(theme: Theme)
    ensures NextTheme(NextTheme(NextTheme(theme))) == theme
    ensures NextTheme(theme) != theme
  {
  }

  /** The theme provider's state that the button updates through `setTheme`. */
  class ThemeState {
    var theme: Theme

    constructor (initial: Theme)
      ensures theme == initial
    {
      theme := initial;
    }

    /** `cycleTheme` */
    method CycleTheme()
      modifies this
      ensures theme == NextTheme(old(theme))
    {
      if theme == Light {
        theme := Dark;
      } else if theme == Dark {
        theme := System;
      } else {
        theme := Light;
      }
    }
  }
}
