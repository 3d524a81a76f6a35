/** The nutritional content of some amount of food (src/types/nutrition.rs): eight
    quantities with scaling and addition. Quantities are reals here, so the laws
    below are exact where the floating-point original is only approximate. */
module Nutrition {

  datatype Nutrition = Nutrition(
    energy: real,         // kcal
    protein: real,        // g
    fat: real,            // g
    fatSaturated: real,   // g
    carbs: real,          // g
    carbsSugars: real,    // g
    fibre: real,          // g
    sodium: real          // mg
  )

  /** The eight fields, so that statements can range over all of them at once. */
  datatype Nutrient = Energy | Protein | Fat | FatSaturated | Carbs | CarbsSugars | Fibre | Sodium

  function Get(n: Nutrition, k: Nutrient): real {
    match k
    case Energy => n.energy
    case Protein => n.protein
    case Fat => n.fat
    case FatSaturated => n.fatSaturated
    case Carbs => n.carbs
    case CarbsSugars => n.carbsSugars
    case Fibre => n.fibre
    case Sodium => n.sodium
  }

  /** Two values that agree on every nutrient are equal. */
  lemma Extensionality(a: Nutrition, b: Nutrition)
    requires forall k :: Get(a, k) == Get(b, k)
    ensures a == b
  {
    assert Get(a, Energy) == Get(b, Energy) && Get(a, Protein) == Get(b, Protein);
    assert Get(a, Fat) == Get(b, Fat) && Get(a, FatSaturated) == Get(b, FatSaturated);
    assert Get(a, Carbs) == Get(b, Carbs) && Get(a, CarbsSugars) == Get(b, CarbsSugars);
    assert Get(a, Fibre) == Get(b, Fibre) && Get(a, Sodium) == Get(b, Sodium);
  }

  /** The all-zero value `calculate_totals` starts from. */
  const Zero: Nutrition := Nutrition(0.0, 0.0, 0.0, 0.0, 0.0, 0.0, 0.0, 0.0)

  /** `Nutrition::scale`: every nutrient multiplied by `factor`, and nothing else. */
  function Scale(n: Nutrition, factor: real): (r: Nutrition)
    ensures forall k :: Get(r, k) == Get(n, k) * factor
  {
    Nutrition(
      n.energy * factor, n.protein * factor, n.fat * factor, n.fatSaturated * factor,
      n.carbs * factor, n.carbsSugars * factor, n.fibre * factor, n.sodium * factor)
  }

  /** `impl Add for Nutrition`: the nutrient-wise sum. */
  function Add(a: Nutrition, b: Nutrition): (r: Nutrition)
    ensures forall k :: Get(r, k) == Get(a, k) + Get(b, k)
  {
    Nutrition(
      a.energy + b.energy, a.protein + b.protein, a.fat + b.fat,
      a.fatSaturated + b.fatSaturated, a.carbs + b.carbs,
      a.carbsSugars + b.carbsSugars, a.fibre + b.fibre, a.sodium + b.sodium)
  }

  lemma ScaleOne(n: Nutrition)
    ensures Scale(n, 1.0) == n
  {
  }

  lemma ScaleZero(n: Nutrition)
    ensures Scale(n, 0.0) == Zero
  {
  }

  lemma AddCommutative(a: Nutrition, b: Nutrition)
    ensures Add(a, b) == Add(b, a)
  {
  }

  lemma AddAssociative(a: Nutrition, b: Nutrition, c: Nutrition)
    ensures Add(Add(a, b), c) == Add(a, Add(b, c))
  {
  }

  lemma ZeroIdentity(n: Nutrition)
    ensures Add(Zero, n) == n && Add(n, Zero) == n
  {
  }

  /** Scaling a sum scales each summand. */
  lemma ScaleDistributes(a: Nutrition, b: Nutrition, factor: real)
    ensures Scale(Add(a, b), factor) == Add(Scale(a, factor), Scale(b, factor))
  {
  }

  /** Scaling twice is scaling once by the product. */
  lemma ScaleCompose(n: Nutrition, x: real, y: real)
    ensures Scale(Scale(n, x), y) == Scale(n, x * y)
  {
  }
}
