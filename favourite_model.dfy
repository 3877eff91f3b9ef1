/** The Favourite record (favourite/models.py): a user marks a product. */
module FavouriteModel {
  import opened Wrappers

  datatype Favourite = Favourite(
    id: nat,
    user: nat,     // required; deleted with the user
    product: nat)  // required; deleted with the product

  /** Two rows clash under `unique_together = (user, product)`. */
  predicate Clash(a: Favourite, b: Favourite)
  {
    a.user == b.user && a.product == b.product
  }

  /** `str(favourite)`: "{email} - {product name}". */
  function Str(email: string, productName: string): string
  {
    email + " - " + productName
  }

  const Separator := " - "

  /** " - " starts at index `j` of the text. */
  predicate SeparatorAt(text: string, j: nat)
  {
    j + 3 <= |text| && text[j..j + 3] == Separator
  }

  /** Where `text.split(" - ", 1)` would split: the first index at which " - " starts. */
  function FindSeparator(text: string): (r: Option<nat>)
    ensures r.Some? ==> SeparatorAt(text, r.value)
    ensures r.Some? ==> forall j: nat :: j < r.value ==> !SeparatorAt(text, j)
  {
    if |text| < 3 then None
    else if text[..3] == Separator then Some(0)
    else
      match FindSeparator(text[1..])
      case None => None
      case Some(k) =>
        assert forall j: nat :: j < k + 1 ==> !SeparatorAt(text, j) by {
          forall j: nat | j < k + 1 ensures !SeparatorAt(text, j) {
            if j > 0 && j + 3 <= |text| {
              assert !SeparatorAt(text[1..], j - 1);
              assert text[1..][j - 1..j + 2] == text[j..j + 3];
            }
          }
        }
        assert text[1..][k..k + 3] == text[k + 1..k + 4];
        Some(k + 1)
  }

  /**
   * An email holds no space, so the first " - " of the text is the one
   * `__str__` put there: splitting at it gives back the email and the
   * product's name.
   */
  lemma {:induction false} StrSplitsBack(email: string, productName: string)
    requires forall i :: 0 <= i < |email| ==> email[i] != ' '
    ensures var s := Str(email, productName);
            && FindSeparator(s) == Some(|email|)
            && s[..|email|] == email && s[|email| + 3..] == productName
  {
    var s := Str(email, productName);
    if email == [] {
      assert s[..3] == Separator;
      assert SeparatorAt(s, 0);
    } else {
      assert s[0] == email[0] != ' ';
      assert s[1..] == Str(email[1..], productName);
      StrSplitsBack(email[1..], productName);
    }
  }
}
