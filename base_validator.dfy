/**
 * `BaseValidator`: the error list every validator starts from and the
 * `isValid` getter. The validators below own one each, standing in for the
 * TypeScript subclassing.
 */
module BaseValidators {
  import opened ValidationModel

  class BaseValidator {
    var errors: seq<ValidationError>

    /** A fresh validator has no errors. */
    constructor()
      ensures errors == []
    {
      errors := [];
    }

    /** `isValid`: true exactly when no error has been recorded; reading it changes nothing. */
    function IsValid(): (r: bool)
      reads this
      ensures r <==> |errors| == 0
    {
      |errors| == 0
    }
  }
}
