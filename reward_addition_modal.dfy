/** The single-reward form: edits one reward record field by field, validates
    it, and sends either an update (the reward has an id) or a create. Costs
    are integer US cents. */
module RewardModal {
  import opened Common

  /** A project reward. `id == 0` is the falsy id of a reward not yet created;
      an empty description stands for a missing one. `image` and `stock` may
      be absent (`None`), and may also hold a falsy value ("" or 0). */
  datatype Reward = Reward(id: int, name: string, description: string, cost: int, image: Option<string>, stock: Option<int>)

  /** The configured limits: name and description lengths, and the cost
      ceiling in cents. */
  datatype RewardLimits = RewardLimits(nameMaxLength: nat, descriptionMaxLength: nat, maxUSDCentsAmount: int)

  /** The messages shown on the form; `None` means no message for that field. */
  datatype RewardErrors = RewardErrors(name: Option<FieldError>, cost: Option<FieldError>, description: Option<FieldError>)

  const NoRewardErrors := RewardErrors(None, None, None)

  datatype RewardCurrency = Btcsat | Usdcent

  datatype CreateProjectRewardInput = CreateProjectRewardInput(
    projectId: int, cost: int, costCurrency: RewardCurrency, description: string,
    image: Option<string>, name: string, stock: Option<int>)

  datatype UpdateProjectRewardInput = UpdateProjectRewardInput(
    projectRewardId: int, cost: int, costCurrency: RewardCurrency, description: string,
    image: Option<string>, name: string, stock: Option<int>)

  datatype RewardRequest = CreateReward(create: CreateProjectRewardInput) | UpdateReward(update: UpdateProjectRewardInput)

  /** The text inputs bound to the change handler, by their `name` attribute;
      `None` is an input without one. */
  datatype TextField = NameField | DescriptionField

  // ---------------------------------------------------------------------
  // Validation

  /** A present name within its limit, a cost above 0 and not above the
      ceiling, and a description that is absent or within its limit. */
  predicate RewardValid(r: Reward, limits: RewardLimits) {
    && r.name != ""
    && |r.name| <= limits.nameMaxLength
    && r.cost > 0
    && r.cost <= limits.maxUSDCentsAmount
    && (r.description == "" || |r.description| <= limits.descriptionMaxLength)
  }

  /** The messages validation records. The ceiling message replaces the
      "greater than 0" message when both cost checks fail. */
  function RewardErrorsOf(r: Reward, limits: RewardLimits): (e: RewardErrors)
    ensures e == NoRewardErrors <==> RewardValid(r, limits)
    ensures e.name == Some(Required) <==> r.name == ""
    ensures e.name == Some(TooLong) <==> r.name != "" && |r.name| > limits.nameMaxLength
    ensures e.name.None? <==> r.name != "" && |r.name| <= limits.nameMaxLength
    ensures e.cost == Some(AboveMaximum) <==> r.cost > limits.maxUSDCentsAmount
    ensures e.cost == Some(BelowMinimum) <==> r.cost <= 0 && r.cost <= limits.maxUSDCentsAmount
    ensures e.cost.None? <==> 0 < r.cost <= limits.maxUSDCentsAmount
    ensures e.description.Some? <==> r.description != "" && |r.description| > limits.descriptionMaxLength
    ensures e.description.Some? ==> e.description == Some(TooLong)
  {
    var name :=
      if r.name == "" then Some(Required)
      else if |r.name| > limits.nameMaxLength then Some(TooLong)
      else None;
    var cost :=
      if r.cost > limits.maxUSDCentsAmount then Some(AboveMaximum)
      else if r.cost <= 0 then Some(BelowMinimum)
      else None;
    var description :=
      if r.description != "" && |r.description| > limits.descriptionMaxLength then Some(TooLong) else None;
    RewardErrors(name, cost, description)
  }

  // ---------------------------------------------------------------------
  // Mutation inputs

  /** `image || undefined`: an absent or empty image is sent as absent. */
  function ImageOrAbsent(image: Option<string>): (sent: Option<string>)
    ensures sent.None? <==> image.None? || image == Some("")
    ensures sent.Some? ==> sent == image
  {
    if image == Some("") then None else image
  }

  /** `stock || undefined`: an absent stock or a stock of 0 is sent as absent. */
  function StockOrAbsent(stock: Option<int>): (sent: Option<int>)
    ensures sent.None? <==> stock.None? || stock == Some(0)
    ensures sent.Some? ==> sent == stock
  {
    if stock == Some(0) then None else stock
  }

  /** The create input: the reward's payload under the project, priced in US cents. */
  function CreationInput(r: Reward, projectId: int): (input: CreateProjectRewardInput)
    ensures input.projectId == projectId && input.costCurrency == Usdcent
    ensures input.cost == r.cost && input.name == r.name && input.description == r.description
    ensures input.image.None? <==> r.image.None? || r.image == Some("")
    ensures input.stock.None? <==> r.stock.None? || r.stock == Some(0)
    ensures input.image.Some? ==> input.image == r.image
    ensures input.stock.Some? ==> input.stock == r.stock
  {
    CreateProjectRewardInput(projectId, r.cost, Usdcent, r.description, ImageOrAbsent(r.image), r.name, StockOrAbsent(r.stock))
  }

  /** The update input: the same payload, addressed by the reward's id. */
  function UpdateInput(r: Reward): (input: UpdateProjectRewardInput)
    ensures input.projectRewardId == r.id && input.costCurrency == Usdcent
    ensures input.cost == r.cost && input.name == r.name && input.description == r.description
    ensures input.image.None? <==> r.image.None? || r.image == Some("")
    ensures input.stock.None? <==> r.stock.None? || r.stock == Some(0)
    ensures input.image.Some? ==> input.image == r.image
    ensures input.stock.Some? ==> input.stock == r.stock
  {
    UpdateProjectRewardInput(r.id, r.cost, Usdcent, r.description, ImageOrAbsent(r.image), r.name, StockOrAbsent(r.stock))
  }

  /** The two builders send the same payload; they differ only in how the
      reward is addressed. */
  lemma InputsCarrySamePayload(r: Reward, projectId: int)
    ensures var c, u := CreationInput(r, projectId), UpdateInput(r);
      c.cost == u.cost && c.costCurrency == u.costCurrency && c.description == u.description
      && c.image == u.image && c.name == u.name && c.stock == u.stock
  {
  }

  /** The one request a confirmed reward turns into. */
  function RewardRequestFor(r: Reward, projectId: int): (q: RewardRequest)
    ensures q.UpdateReward? <==> r.id != 0
    ensures q.UpdateReward? ==> q.update == UpdateInput(r)
    ensures q.CreateReward? ==> q.create == CreationInput(r, projectId)
  {
    if r.id != 0 then UpdateReward(UpdateInput(r)) else CreateReward(CreationInput(r, projectId))
  }

  class RewardAdditionModal {
    const projectId: int
    const limits: RewardLimits

    /** The reward being edited (the `rewards` ref). */
    var reward: Reward
    var formErrors: RewardErrors
    /** Every request sent to the server, in order. */
    var requests: seq<RewardRequest>

    /** Opens on the given reward, or on the default one when there is none. */
    constructor (availableReward: Option<Reward>, defaultReward: Reward, projectId: int, limits: RewardLimits)
      ensures this.projectId == projectId && this.limits == limits
      ensures reward == (if availableReward.Some? then availableReward.value else defaultReward)
      ensures formErrors == NoRewardErrors && requests == []
    {
      this.projectId := projectId;
      this.limits := limits;
      reward := if availableReward.Some? then availableReward.value else defaultReward;
      formErrors := NoRewardErrors;
      requests := [];
    }

    /** A text input changed: the messages are cleared, and the field the
        input names (if it names one) takes the value; nothing else changes. */
    method TextChange(field: Option<TextField>, value: string)
      modifies this`reward, this`formErrors
      ensures formErrors == NoRewardErrors
      ensures field == None ==> reward == old(reward)
      ensures field == Some(NameField) ==> reward == old(reward).(name := value)
      ensures field == Some(DescriptionField) ==> reward == old(reward).(description := value)
    {
      formErrors := NoRewardErrors;
      if field.Some? {
        match field.value
        case NameField => reward := reward.(name := value);
        case DescriptionField => reward := reward.(description := value);
      }
    }

    /** The cost input changed, already converted to cents: the messages are
        cleared and only the cost changes. */
    method CostAmountChange(cents: int)
      modifies this`reward, this`formErrors
      ensures formErrors == NoRewardErrors
      ensures reward == old(reward).(cost := cents)
    {
      formErrors := NoRewardErrors;
      reward := reward.(cost := cents);
    }

    /** An image finished uploading: only the image changes. */
    method Upload(url: string)
      modifies this`reward
      ensures reward == old(reward).(image := Some(url))
    {
      reward := reward.(image := Some(url));
    }

    /** Validates the reward; the messages are stored only when it is invalid. */
    method ValidateReward() returns (isValid: bool)
      modifies this`formErrors
      ensures isValid == RewardValid(reward, limits)
      ensures formErrors == if isValid then old(formErrors) else RewardErrorsOf(reward, limits)
    {
      var errors := NoRewardErrors;
      isValid := true;
      if reward.name == "" {
        errors := errors.(name := Some(Required));
        isValid := false;
      } else if |reward.name| > limits.nameMaxLength {
        errors := errors.(name := Some(TooLong));
        isValid := false;
      }
      if reward.cost <= 0 {
        errors := errors.(cost := Some(BelowMinimum));
        isValid := false;
      }
      if reward.cost > limits.maxUSDCentsAmount {
        errors := errors.(cost := Some(AboveMaximum));
        isValid := false;
      }
      if reward.description != "" && |reward.description| > limits.descriptionMaxLength {
        errors := errors.(description := Some(TooLong));
        isValid := false;
      }
      if !isValid {
        formErrors := errors;
      }
    }

    /** Confirming: an invalid reward sends nothing; a valid one sends exactly
        one request, an update when it has an id and a create otherwise. */
    method ConfirmReward()
      modifies this`formErrors, this`requests
      ensures !RewardValid(reward, limits) ==> requests == old(requests) && formErrors == RewardErrorsOf(reward, limits)
      ensures RewardValid(reward, limits) ==> requests == old(requests) + [RewardRequestFor(reward, projectId)] && formErrors == old(formErrors)
    {
      var isValid := ValidateReward();
      if !isValid {
        return;
      }
      if reward.id != 0 {
        requests := requests + [UpdateReward(UpdateInput(reward))];
      } else {
        requests := requests + [CreateReward(CreationInput(reward, projectId))];
      }
    }
  }
}
