/**
 * The fixed task catalog, month vocabulary and year list of the tracker.
 * A task's unit value is a whole number of tenths of a point, so it is kept
 * here as an integer count of tenths (0.5 points is 5).
 */
module Catalog {

  datatype Task = Task(id: int, name: string, unitTenths: nat)

  const TASKS: seq<Task> := [
    Task(1, "Despachos", 5),
    Task(2, "Ata de Audiência", 7),
    Task(3, "Decisão Recurso", 4),
    Task(4, "Decisão", 7),
    Task(5, "Sentença - IDPJ", 14),
    Task(6, "Sentença com mérito", 11),
    Task(7, "Sentença sem mérito", 7),
    Task(8, "Sentença ED", 7),
    Task(9, "Sentença EE / Impugnação à Sentença de Liquidação", 14),
    Task(10, "Sentença", 7),
    Task(11, "Sentença Parcial", 7),
    Task(13, "Mandado", 5),
    Task(14, "Intimação", 2),
    Task(15, "Alvará", 5),
    Task(16, "Carta Precatória", 5),
    Task(17, "Edital", 2),
    Task(18, "Notificação", 2),
    Task(19, "Ofício", 5),
    Task(20, "Precatório", 7),
    Task(21, "RPV", 5),
    Task(22, "Perícias - Requisição de Honorários", 7),
    Task(23, "Certidão de Crédito", 7),
    Task(24, "SISBAJUD", 5),
    Task(26, "INFOJUD", 7),
    Task(27, "INFOSEG", 7),
    Task(28, "RENAJUD", 4),
    Task(291, "Ferramenta - Outras (especificar no registro detalhado)", 7),
    Task(292, "Planilha de Cálculos - Sentenças", 18),
    Task(30, "Atualização de Cálculos", 7),
    Task(31, "Planilha de Cálculos PjeCalc", 18),
    Task(32, "Documentos diversos", 1),
    Task(33, "Certidão", 2),
    Task(37, "Mudança de fase", 4),
    Task(38, "Arquivamento", 4),
    Task(39, "Pagamentos", 2),
    Task(40, "Sobrestamento/Dessobrestamento", 2),
    Task(41, "BNDT", 1),
    Task(42, "Mudança de classe processual", 1),
    Task(43, "Audiência (marcação ou cancelamento)", 1),
    Task(44, "Conclusão", 1),
    Task(45, "Desarquivamento", 1),
    Task(48, "Retificação", 1),
    Task(49, "Escaninho (Baixa de petição)", 1)
  ]

  /** The three-letter month tokens, in calendar order. */
  const MONTHS: seq<string> := ["jan", "fev", "mar", "abr", "mai", "jun", "jul", "ago", "set", "out", "nov", "dez"]

  const YEARS: seq<int> := [2026, 2027]

  /** The ids a list of tasks defines. */
  function IdsOf(tasks: seq<Task>): set<int> {
    set k | 0 <= k < |tasks| :: tasks[k].id
  }

  /** The ids the catalog defines. */
  function CatalogIds(): set<int> {
    IdsOf(TASKS)
  }

  /**
   * The position a task takes in the report's document numbering: ids 291 and
   * 292 are the two sub-items of document code 29, so they sort between 28 and 30.
   */
  function DocumentOrder(id: int): int {
    if id >= 100 then id else id * 10
  }

  /** The catalog is listed in strictly increasing document order. */
  lemma CatalogInDocumentOrder(i: int, j: int)
    requires 0 <= i < j < |TASKS|
    ensures DocumentOrder(TASKS[i].id) < DocumentOrder(TASKS[j].id)
  {
    forall k | 0 <= k < |TASKS| - 1
      ensures DocumentOrder(TASKS[k].id) < DocumentOrder(TASKS[k + 1].id)
    {
      if k < 21 {
        AdjacentInOrderLow(k);
      } else {
        AdjacentInOrderHigh(k);
      }
    }
    OrderedByAdjacent(TASKS, i, j);
  }

  /** A list whose neighbours are in increasing document order is in increasing document order throughout. */
  lemma {:induction false} OrderedByAdjacent(tasks: seq<Task>, i: int, j: int)
    requires 0 <= i < j < |tasks|
    requires forall k :: 0 <= k < |tasks| - 1 ==> DocumentOrder(tasks[k].id) < DocumentOrder(tasks[k + 1].id)
    ensures DocumentOrder(tasks[i].id) < DocumentOrder(tasks[j].id)
    decreases j - i
  {
    if j > i + 1 {
      OrderedByAdjacent(tasks, i, j - 1);
    }
  }

  lemma AdjacentInOrderLow(k: int)
    requires 0 <= k < 21
    ensures DocumentOrder(TASKS[k].id) < DocumentOrder(TASKS[k + 1].id)
  {
  }

  lemma AdjacentInOrderHigh(k: int)
    requires 21 <= k < |TASKS| - 1
    ensures DocumentOrder(TASKS[k].id) < DocumentOrder(TASKS[k + 1].id)
  {
  }

  /** No two catalog entries share an id: 43 tasks, 43 ids. */
  lemma CatalogIdsDistinct()
    ensures |TASKS| == 43
    ensures forall i, j :: 0 <= i < j < |TASKS| ==> TASKS[i].id != TASKS[j].id
  {
    forall i, j | 0 <= i < j < |TASKS|
      ensures TASKS[i].id != TASKS[j].id
    {
      CatalogInDocumentOrder(i, j);
    }
  }

  /** Ids 10 and 11 and ids 291 and 292 are distinct catalog entries. */
  lemma CatalogKeepsSplitCodes()
    ensures 10 in CatalogIds() && 11 in CatalogIds() && 291 in CatalogIds() && 292 in CatalogIds()
  {
    assert TASKS[9].id == 10 && TASKS[10].id == 11 && TASKS[26].id == 291 && TASKS[27].id == 292;
  }

  /** Codes 12, 25, 29, 34-36, 46 and 47 have no task. */
  lemma CatalogGaps()
    ensures forall k :: 0 <= k < |TASKS| ==> TASKS[k].id !in {12, 25, 29, 34, 35, 36, 46, 47}
  {
    forall k | 0 <= k < |TASKS|
      ensures TASKS[k].id !in {12, 25, 29, 34, 35, 36, 46, 47}
    {
      if k < 21 {
        GapsLow(k);
      } else {
        GapsHigh(k);
      }
    }
  }

  lemma GapsLow(k: int)
    requires 0 <= k < 21
    ensures TASKS[k].id !in {12, 25, 29, 34, 35, 36, 46, 47}
  {
  }

  lemma GapsHigh(k: int)
    requires 21 <= k < |TASKS|
    ensures TASKS[k].id !in {12, 25, 29, 34, 35, 36, 46, 47}
  {
  }

  /** Every unit value lies between 0.1 and 1.8 points. */
  lemma CatalogUnitValues()
    ensures forall k :: 0 <= k < |TASKS| ==> 1 <= TASKS[k].unitTenths <= 18
  {
  }

  /** Twelve distinct tokens, January first and December last. */
  lemma MonthsShape()
    ensures |MONTHS| == 12 && MONTHS[0] == "jan" && MONTHS[1] == "fev" && MONTHS[2] == "mar" && MONTHS[11] == "dez"
    ensures forall i, j :: 0 <= i < j < |MONTHS| ==> MONTHS[i] != MONTHS[j]
    ensures forall m :: m in MONTHS ==> |m| == 3 && '-' !in m
  {
  }
}
