/**
 * The player class of the class-versus-struct lesson: a named entity whose
 * health is changed only through `takeDamage`, which clamps it at zero. The
 * damage log line is not modelled.
 */
module ClassVsStruct {

  /** Health after taking `damage`: the difference, clamped below at zero and not above. */
  function AfterDamage(health: int, damage: int): int
  {
    if health - damage < 0 then 0 else health - damage
  }

  class Player {
    var name: string
    var health: int
    var maxHealth: int

    constructor (n: string, hp: int)
      ensures name == n && health == hp && maxHealth == hp
    {
      name := n;
      health := hp;
      maxHealth := hp;
    }

    /** Subtracts the damage and raises a negative result to 0; nothing else changes. */
    method TakeDamage(damage: int)
      modifies this`health
      ensures health == AfterDamage(old(health), damage)
      ensures health >= 0
      ensures damage <= old(health) ==> health == old(health) - damage
      ensures damage > old(health) ==> health == 0
      ensures name == old(name) && maxHealth == old(maxHealth)
    {
      health := health - damage;
      if health < 0 {
        health := 0;
      }
    }

    method GetHealth() returns (h: int)
      ensures h == health
    {
      h := health;
    }
  }

  /**
   * Non-negative hits accumulate: two hits leave the health one hit of their
   * total would. Negative damage heals, with no cap at maxHealth.
   */
  lemma DamageAccumulates(health: int, d1: int, d2: int)
    requires d1 >= 0 && d2 >= 0
    ensures AfterDamage(AfterDamage(health, d1), d2) == AfterDamage(health, d1 + d2)
  {
  }

  /** Negative damage raises health past any bound: there is no upper clamp. */
  lemma NoUpperClamp(health: int, damage: int)
    requires health >= 0 && damage < 0
    ensures AfterDamage(health, damage) == health - damage > health
  {
  }

  /**
   * Negative damage on a player at full health: "Hero" with 100 HP takes -1
   * and ends with 101, above its maximum health, which is not consulted.
   */
  method HealPastMax() returns (hp: int, maxHp: int)
    ensures hp == 101 && maxHp == 100 && hp > maxHp
  {
    var p := new Player("Hero", 100);
    p.TakeDamage(-1);
    hp := p.GetHealth();
    maxHp := p.maxHealth;
  }

  /** The lesson's player "Hero" with 100 HP takes 20 damage and has 80 left. */
  method HeroScenario() returns (hp: int)
    ensures hp == 80
  {
    var p := new Player("Hero", 100);
    p.TakeDamage(20);
    hp := p.GetHealth();
  }
}
