/** The form-side state around image validation: in progress, verdict and message. */
module ImageValidationHook {
  import opened Wrappers
  import opened ImageValidation

  const InvalidImageMessage := "Неверный URL изображения или изображение недоступно"
  const ValidationFailedMessage := "Ошибка валидации изображения"

  /** How the awaited validation settled. */
  datatype Settlement = Fulfilled(result: bool) | Rejected

  /** `shouldDisableSubmit`: only a changed image that is being checked or failed blocks saving. */
  function ShouldDisableSubmit(imageChanged: bool, isValidating: bool, isValid: bool): (disable: bool)
    ensures disable <==> imageChanged && (isValidating || !isValid)
  {
    if !imageChanged then false
    else if isValidating then true
    else if !isValid then true
    else false
  }

  class ImageValidationState {
    var isValidating: bool
    var isValid: bool
    var validationError: string
    const originalImageUrl: string
    const currentImageUrl: string
    const imageChanged: bool

    /** Validation only ever runs for a changed image. */
    predicate Valid()
      reads this
    {
      !imageChanged ==> !isValidating
    }

    function DisableSubmit(): bool
      reads this
    {
      ShouldDisableSubmit(imageChanged, isValidating, isValid)
    }

    /** `useImageValidation`: not validating, valid, no message. */
    constructor (originalImageUrl: string, currentImageUrl: string)
      ensures this.originalImageUrl == originalImageUrl && this.currentImageUrl == currentImageUrl
      ensures imageChanged == HasImageChanged(originalImageUrl, currentImageUrl)
      ensures !isValidating && isValid && validationError == ""
      ensures Valid() && !DisableSubmit()
    {
      this.originalImageUrl := originalImageUrl;
      this.currentImageUrl := currentImageUrl;
      imageChanged := HasImageChanged(originalImageUrl, currentImageUrl);
      isValidating, isValid, validationError := false, true, "";
    }

    /** The part of `validateCurrentImage` before the await: submitting is blocked meanwhile. */
    method BeginValidation()
      requires imageChanged
      modifies this
      ensures isValidating && isValid == old(isValid) && validationError == ""
      ensures DisableSubmit()
    {
      isValidating := true;
      validationError := "";
    }

    /** The part after the await: the verdict or the failure, then `finally` clears the flag. */
    method FinishValidation(outcome: Settlement)
      modifies this
      ensures !isValidating
      ensures outcome == Fulfilled(true) ==> isValid && validationError == old(validationError)
      ensures outcome == Fulfilled(false) ==> !isValid && validationError == InvalidImageMessage
      ensures outcome == Rejected ==> !isValid && validationError == ValidationFailedMessage
      ensures Valid()
    {
      match outcome {
        case Fulfilled(result) =>
          isValid := result;
          if !result {
            validationError := InvalidImageMessage;
          }
        case Rejected =>
          isValid := false;
          validationError := ValidationFailedMessage;
      }
      isValidating := false;
    }

    /**
     * `validateCurrentImage`: nothing to check for an unchanged image; otherwise the
     * verdict of `validateImageUrl` on the current URL, with its message.
     */
    method ValidateCurrentImage(parsed: Option<ParsedUrl>, head: HeadReply)
      requires Valid()
      modifies this
      ensures !isValidating && Valid()
      ensures !imageChanged ==> isValid && validationError == ""
      ensures imageChanged ==> isValid == ValidateImageUrl(currentImageUrl, parsed, head).valid
      ensures imageChanged ==> validationError == if isValid then "" else InvalidImageMessage
      ensures DisableSubmit() <==> imageChanged && !ValidateImageUrl(currentImageUrl, parsed, head).valid
    {
      if !imageChanged {
        isValid := true;
        validationError := "";
        return;
      }
      BeginValidation();
      var result := ValidateImageUrl(currentImageUrl, parsed, head).valid;
      FinishValidation(Fulfilled(result));
    }

    /** `resetValidation`. */
    method ResetValidation()
      modifies this
      ensures !isValidating && isValid && validationError == ""
      ensures Valid() && !DisableSubmit()
    {
      isValidating, isValid, validationError := false, true, "";
    }
  }
}
