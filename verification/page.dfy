/** The client page's list helpers and form state: the destination filter,
    adding and removing form activities, loading a record into the form for
    editing, and the create-or-update save. */
module Page {
  import opened Base
  import opened Text
  import Store
  import Route
  import Arrays

  /** An activity in the form; `id` is absent for one added on the page. */
  datatype Atividade = Atividade(id: Option<Id>, nome: string, data: Option<string>)

  /** The budget input: left empty, or holding a number. */
  datatype BudgetField = Empty | Entered(amount: real)

  /** The page's form state. */
  datatype Form = Form(
    destino: string,
    dataInicio: Date,
    dataFim: Date,
    orcamento: BudgetField,
    notas: string,
    atividades: seq<Atividade>,
    novaAtividade: string,
    novaAtividadeData: string,
    editandoId: Option<Id>,
    busca: string)

  /** The toast a handler raises, if any. */
  datatype Feedback = Silent | SuccessToast | ErrorToast

  datatype Outcome = Outcome(form: Form, feedback: Feedback)

  datatype HttpMethod = POST | PUT

  /** `/api/roteiros` or `/api/roteiros/{id}`. */
  datatype Url = Collection | Item(id: Id)

  datatype Request = Request(verb: HttpMethod, url: Url, body: Route.Body)

  /** The form as the page first shows it: create mode, every input empty. */
  function Initial(): (f: Form)
    ensures f.editandoId.None? && f.atividades == [] && f.orcamento.Empty?
    ensures f.destino == f.dataInicio == f.dataFim == f.notas == ""
    ensures f.novaAtividade == f.novaAtividadeData == f.busca == ""
  {
    Form("", "", "", Empty, "", [], "", "", None, "")
  }

  /* ---------------- roteirosFiltrados ---------------- */

  /** The destination contains the search text, ignoring (ASCII) case. */
  predicate Matches(r: Store.Roteiro, busca: string) {
    Includes(Lower(r.destino), Lower(busca))
  }

  /** `roteiros.filter(...)`: the itineraries of `rs` whose destination matches `busca`. */
  function Filtrados(rs: seq<Store.Roteiro>, busca: string): (out: seq<Store.Roteiro>)
    ensures |out| <= |rs|
    ensures forall i :: 0 <= i < |out| ==> Matches(out[i], busca)
  {
    Arrays.Filter(rs, r => Matches(r, busca))
  }

  /* ---------------- adicionarAtividade ---------------- */

  /** Key-down in the new-activity input. Only Enter acts: a blank name raises
      an error toast; otherwise the trimmed name is appended, an empty date
      becomes absent, and both inputs are cleared. */
  function AdicionarAtividade(f: Form, key: string): (o: Outcome)
    ensures key != "Enter" ==> o == Outcome(f, Silent)
    ensures key == "Enter" && Blank(f.novaAtividade) ==> o == Outcome(f, ErrorToast)
    ensures key == "Enter" && !Blank(f.novaAtividade) ==>
              && o.feedback == Silent
              && |o.form.atividades| == |f.atividades| + 1
              && o.form.atividades == f.atividades + [o.form.atividades[|f.atividades|]]
              && var added := o.form.atividades[|f.atividades|];
              && added.id == None
              && added.nome == Trim(f.novaAtividade)
              && (added.data == None <==> f.novaAtividadeData == "")
              && (added.data != None ==> added.data == Some(f.novaAtividadeData))
              && o.form == f.(atividades := o.form.atividades, novaAtividade := "", novaAtividadeData := "")
  {
    if key != "Enter" then
      Outcome(f, Silent)
    else
      var nome := Trim(f.novaAtividade);
      if nome != "" then
        var data := if f.novaAtividadeData != "" then Some(f.novaAtividadeData) else None;
        var atividades := f.atividades + [Atividade(None, nome, data)];
        Outcome(f.(atividades := atividades, novaAtividade := "", novaAtividadeData := ""), Silent)
      else
        Outcome(f, ErrorToast)
  }

  /* ---------------- removerAtividade ---------------- */

  /** Removes the activity at `index`; an index outside the list changes nothing. */
  function RemoverAtividade(f: Form, index: int): (f': Form)
    ensures 0 <= index < |f.atividades| ==>
              && |f'.atividades| == |f.atividades| - 1
              && (forall i :: 0 <= i < index ==> f'.atividades[i] == f.atividades[i])
              && (forall i :: index <= i < |f'.atividades| ==> f'.atividades[i] == f.atividades[i + 1])
    ensures !(0 <= index < |f.atividades|) ==> f'.atividades == f.atividades
    ensures f' == f.(atividades := f'.atividades)
  {
    f.(atividades := Arrays.FilterOutIndex(f.atividades, index, 0))
  }

  /* ---------------- editarRoteiro ---------------- */

  /** The budget input shown for a stored budget: `orcamento?.toString() || ''`. */
  function BudgetInput(orcamento: Option<real>): (b: BudgetField)
    ensures b.Empty? <==> orcamento.None?
    ensures b.Entered? ==> b.amount == orcamento.value
  {
    match orcamento
    case Some(amount) => Entered(amount)
    case None => Empty
  }

  /** Loads a record's scalar fields into the form and enters edit mode.
      The form's activity list, new-activity inputs and search are left as they were. */
  function EditarRoteiro(f: Form, r: Store.Roteiro): (f': Form)
    ensures f'.editandoId == Some(r.id)
    ensures f'.destino == r.destino && f'.dataInicio == r.dataInicio && f'.dataFim == r.dataFim
    ensures f'.orcamento == BudgetInput(r.orcamento)
    ensures f'.notas == (if r.notas.Some? then r.notas.value else "")
    ensures f'.atividades == f.atividades
    ensures f'.novaAtividade == f.novaAtividade && f'.novaAtividadeData == f.novaAtividadeData
    ensures f'.busca == f.busca
  {
    f.(editandoId := Some(r.id), destino := r.destino, dataInicio := r.dataInicio,
       dataFim := r.dataFim, orcamento := BudgetInput(r.orcamento),
       notas := match r.notas case Some(n) => n case None => "")
  }

  /** A stored activity as the page receives it in the listing. */
  function FromStored(acts: seq<Store.Activity>): (out: seq<Atividade>)
    ensures |out| == |acts|
    ensures forall i :: 0 <= i < |acts| ==>
              out[i].id == Some(acts[i].id) && out[i].nome == acts[i].nome && out[i].data == acts[i].data
  {
    if acts == [] then []
    else [Atividade(Some(acts[0].id), acts[0].nome, acts[0].data)] + FromStored(acts[1..])
  }

  /** Edit mode that also loads the record's activities into the form. */
  function EditarRoteiroWithActivities(f: Form, r: Store.Roteiro): (f': Form)
    ensures f' == EditarRoteiro(f, r).(atividades := f'.atividades)
    ensures |f'.atividades| == |r.atividades|
    ensures forall i :: 0 <= i < |r.atividades| ==>
              f'.atividades[i].nome == r.atividades[i].nome && f'.atividades[i].data == r.atividades[i].data
  {
    EditarRoteiro(f, r).(atividades := FromStored(r.atividades))
  }

  /* ---------------- criarOuAtualizarRoteiro ---------------- */

  /** The activities as the request body carries them: the server reads `nome` and `data`. */
  function ToInputs(atividades: seq<Atividade>): (inputs: seq<Store.ActivityInput>)
    ensures |inputs| == |atividades|
    ensures forall i :: 0 <= i < |atividades| ==>
              inputs[i].nome == atividades[i].nome && inputs[i].data == atividades[i].data
  {
    if atividades == [] then []
    else [Store.ActivityInput(atividades[0].nome, atividades[0].data)] + ToInputs(atividades[1..])
  }

  /** The request the save sends: PUT to the record's URL in edit mode,
      otherwise POST to the collection; the body carries the form's fields. */
  function SaveRequest(f: Form): (req: Request)
    ensures req.verb == PUT <==> f.editandoId.Some?
    ensures req.url == (if f.editandoId.Some? then Item(f.editandoId.value) else Collection)
    ensures req.body.destino == f.destino && req.body.dataInicio == f.dataInicio && req.body.dataFim == f.dataFim
    ensures req.body.orcamento.None? <==> f.orcamento.Empty?
    ensures req.body.orcamento.Some? ==> req.body.orcamento.value == f.orcamento.amount
    ensures req.body.notas == Some(f.notas)
    ensures req.body.atividades.Some? && |req.body.atividades.value| == |f.atividades|
    ensures forall i :: 0 <= i < |f.atividades| ==>
              req.body.atividades.value[i].nome == f.atividades[i].nome &&
              req.body.atividades.value[i].data == f.atividades[i].data
    ensures req.body.id.None? && req.body.userId.None?
  {
    var body := Route.Body(None, f.destino, f.dataInicio, f.dataFim,
                           match f.orcamento case Entered(x) => Some(x) case Empty => None,
                           Some(f.notas), Some(ToInputs(f.atividades)), None);
    match f.editandoId
    case Some(id) => Request(PUT, Item(id), body)
    case None => Request(POST, Collection, body)
  }

  /** What the save does with the response: on success every form field is
      reset and edit mode ends; on failure the form stays and an error toast shows. */
  function AfterSave(f: Form, ok: bool): (o: Outcome)
    ensures ok ==> o.feedback == SuccessToast
    ensures ok ==> o.form == Initial().(novaAtividade := f.novaAtividade,
                                        novaAtividadeData := f.novaAtividadeData, busca := f.busca)
    ensures !ok ==> o == Outcome(f, ErrorToast)
  {
    if ok then
      Outcome(f.(destino := "", dataInicio := "", dataFim := "", orcamento := Empty, notas := "",
                 atividades := [], editandoId := None), SuccessToast)
    else
      Outcome(f, ErrorToast)
  }
}
